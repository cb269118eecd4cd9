/** The sending half of ua_securechannel.c as functions: the chunks of one message. */
module ChunkSending {
  import opened Sequences
  import opened UaBytes
  import opened ChunkReceiving

  const BADRESPONSETOOLARGE: UInt32 := 0x80B90000

  /** remoteConf.maxMessageSize and remoteConf.maxChunkCount; 0 is no limit. */
  datatype Limits = Limits(maxMessageSize: nat, maxChunkCount: nat)

  /** One chunk without the parts of the header that the channel adds. */
  datatype Chunk = Chunk(kind: nat, body: Bytes)

  /** The body of an abort chunk: the error code and a null string. */
  function AbortBody(error: UInt32): (b: Bytes)
    ensures |b| == 8
  {
    Le32(error) + Le32(0xFFFF_FFFF)
  }

  /** How far a message has got: ci->chunksSoFar is a UInt16, ci->messageSizeSoFar a size. */
  datatype Progress = Progress(chunksSoFar: nat, messageSizeSoFar: nat)

  function CountOne(p: Progress): (n: nat)
    ensures n < 65536
  {
    (p.chunksSoFar + 1) % 65536
  }

  /** Would the chunk with this payload go over a limit? */
  predicate TooLarge(p: Progress, payload: nat, l: Limits) {
    || (l.maxMessageSize > 0 && p.messageSizeSoFar + HEADER_LENGTH + payload > l.maxMessageSize)
    || (l.maxChunkCount > 0 && CountOne(p) > l.maxChunkCount)
  }

  /** The chunk UA_SecureChannel_sendChunk emits for a payload; error is ci->errorCode
      before the limits are looked at, 0 being good. */
  function ChunkFor(p: Progress, payload: Bytes, last: bool, error: UInt32, l: Limits): Chunk {
    if TooLarge(p, |payload|, l) then Chunk(ABORT, AbortBody(BADRESPONSETOOLARGE))
    else if error != 0 then Chunk(ABORT, AbortBody(error))
    else Chunk(if last then FINAL else INTERMEDIATE, payload)
  }

  function After(p: Progress, c: Chunk): Progress {
    Progress(CountOne(p), p.messageSizeSoFar + HEADER_LENGTH + |c.body|)
  }

  /** The chunks of a message whose encoding fills the buffers frags one after the other and
      then ends with status error.  The encoder stops when a chunk could not be sent. */
  function Chunks(frags: seq<Bytes>, error: UInt32, p: Progress, l: Limits): (r: seq<Chunk>)
    requires frags != []
    ensures r != []
    decreases |frags|
  {
    if |frags| == 1 then [ChunkFor(p, frags[0], true, error, l)]
    else
      var c := ChunkFor(p, frags[0], false, 0, l);
      if c.kind == ABORT then [c] else [c] + Chunks(frags[1..], error, After(p, c), l)
  }

  const FRESH := Progress(0, 0)

  function Bodies(cs: seq<Chunk>): Bytes {
    if cs == [] then [] else cs[0].body + Bodies(cs[1..])
  }

  /** Bytes on the wire, headers included. */
  function WireSize(cs: seq<Chunk>): nat {
    if cs == [] then 0 else HEADER_LENGTH + |cs[0].body| + WireSize(cs[1..])
  }

  predicate Aborted(cs: seq<Chunk>) { cs != [] && cs[|cs| - 1].kind == ABORT }

  /** Intermediate chunks, then one final or abort chunk. */
  predicate Shaped(cs: seq<Chunk>) {
    && cs != []
    && (forall i | 0 <= i < |cs| - 1 :: cs[i].kind == INTERMEDIATE)
    && (cs[|cs| - 1].kind == FINAL || cs[|cs| - 1].kind == ABORT)
  }

  lemma {:induction false} ChunksShaped(frags: seq<Bytes>, error: UInt32, p: Progress, l: Limits)
    requires frags != []
    ensures Shaped(Chunks(frags, error, p, l)) && |Chunks(frags, error, p, l)| <= |frags|
    ensures forall c | c in Chunks(frags, error, p, l) :: c.kind == ABORT ==> |c.body| == 8
    decreases |frags|
  {
    hide AbortBody, TooLarge;
    if |frags| > 1 {
      var c := ChunkFor(p, frags[0], false, 0, l);
      ChunksShaped(frags[1..], error, After(p, c), l);
    }
  }

  /** A message that is not aborted carries exactly what was encoded. */
  lemma {:induction false} ChunksCarryAll(frags: seq<Bytes>, error: UInt32, p: Progress, l: Limits)
    requires frags != [] && !Aborted(Chunks(frags, error, p, l))
    ensures Bodies(Chunks(frags, error, p, l)) == Concat(frags) && |Chunks(frags, error, p, l)| == |frags|
    ensures error == 0
    decreases |frags|
  {
    hide TooLarge;
    if |frags| > 1 {
      var c := ChunkFor(p, frags[0], false, 0, l);
      var rest := Chunks(frags[1..], error, After(p, c), l);
      assert Aborted([c] + rest) == Aborted(rest);
      assert ([c] + rest)[1..] == rest;
      ChunksCarryAll(frags[1..], error, After(p, c), l);
    } else {
      var c := ChunkFor(p, frags[0], true, error, l);
      assert Bodies([c]) == c.body + Bodies([c][1..]);
      assert Concat(frags) == frags[0] + Concat(frags[1..]);
    }
  }

  function TotalSize(frags: seq<Bytes>): nat {
    if frags == [] then 0 else HEADER_LENGTH + |frags[0]| + TotalSize(frags[1..])
  }

  /** The count that is compared with the limit stays below 65536. */
  predicate CountFits(n: nat, l: Limits) { l.maxChunkCount == 0 || l.maxChunkCount >= 65535 || n <= l.maxChunkCount }

  /** A message is sent whole exactly if it encodes without error, its chunks together are
      not larger than the size limit, and there are not more of them than the chunk limit
      says, a chunk limit of 65535 or more being none. */
  lemma {:induction false} SentWhole(frags: seq<Bytes>, error: UInt32, p: Progress, l: Limits)
    requires frags != []
    requires l.maxChunkCount == 0 || l.maxChunkCount >= 65535 || p.chunksSoFar <= l.maxChunkCount
    ensures !Aborted(Chunks(frags, error, p, l)) <==>
            && error == 0
            && (l.maxMessageSize == 0 || p.messageSizeSoFar + TotalSize(frags) <= l.maxMessageSize)
            && CountFits(p.chunksSoFar + |frags|, l)
    decreases |frags|
  {
    assert TotalSize(frags) >= HEADER_LENGTH + |frags[0]|;
    if |frags| > 1 {
      var c := ChunkFor(p, frags[0], false, 0, l);
      if c.kind != ABORT {
        var rest := Chunks(frags[1..], error, After(p, c), l);
        assert Aborted([c] + rest) == Aborted(rest);
        CountGrows(p, l);
        SentWhole(frags[1..], error, After(p, c), l);
        CountAgrees(p, |frags| - 1, l);
      }
    } else {
      assert TotalSize(frags[1..]) == 0;
    }
  }

  lemma CountGrows(p: Progress, l: Limits)
    requires l.maxChunkCount == 0 || l.maxChunkCount >= 65535 || p.chunksSoFar <= l.maxChunkCount
    ensures l.maxChunkCount == 0 || l.maxChunkCount >= 65535 || CountOne(p) <= p.chunksSoFar + 1 <= 65535
  {
  }

  lemma CountAgrees(p: Progress, n: nat, l: Limits)
    requires l.maxChunkCount == 0 || l.maxChunkCount >= 65535 || p.chunksSoFar <= l.maxChunkCount
    requires l.maxChunkCount == 0 || CountOne(p) <= l.maxChunkCount
    ensures CountFits(CountOne(p) + n, l) <==> CountFits(p.chunksSoFar + 1 + n, l)
  {
  }

  lemma {:induction false} WireSizeIs(frags: seq<Bytes>, error: UInt32, p: Progress, l: Limits)
    requires frags != [] && !Aborted(Chunks(frags, error, p, l))
    ensures WireSize(Chunks(frags, error, p, l)) == TotalSize(frags)
    decreases |frags|
  {
    hide TooLarge;
    if |frags| > 1 {
      var c := ChunkFor(p, frags[0], false, 0, l);
      var rest := Chunks(frags[1..], error, After(p, c), l);
      assert Aborted([c] + rest) == Aborted(rest);
      assert ([c] + rest)[1..] == rest;
      WireSizeIs(frags[1..], error, After(p, c), l);
    } else {
      var c := ChunkFor(p, frags[0], true, error, l);
      assert WireSize([c]) == HEADER_LENGTH + |c.body| + WireSize([c][1..]);
      assert TotalSize(frags[1..]) == 0;
    }
  }

  /** The limits of the peer hold for every message that is not aborted: the size limit
      always, the chunk limit if it is below 65535. */
  lemma LimitsHold(frags: seq<Bytes>, error: UInt32, l: Limits)
    requires frags != [] && !Aborted(Chunks(frags, error, FRESH, l))
    ensures l.maxMessageSize > 0 ==> WireSize(Chunks(frags, error, FRESH, l)) <= l.maxMessageSize
    ensures 0 < l.maxChunkCount < 65535 ==> |Chunks(frags, error, FRESH, l)| <= l.maxChunkCount
  {
    SentWhole(frags, error, FRESH, l);
    WireSizeIs(frags, error, FRESH, l);
    ChunksCarryAll(frags, error, FRESH, l);
  }

  /** Every buffer carries at least b bytes. */
  ghost predicate Filled(frags: seq<Bytes>, b: nat) {
    frags != [] && forall i | 0 <= i < |frags| :: |frags[i]| >= b
  }

  lemma {:induction false} FilledSize(frags: seq<Bytes>, b: nat)
    requires forall i | 0 <= i < |frags| :: |frags[i]| >= b
    ensures TotalSize(frags) >= (HEADER_LENGTH + b) * |frags|
    ensures (forall i | 0 <= i < |frags| :: |frags[i]| == b) ==> TotalSize(frags) == (HEADER_LENGTH + b) * |frags|
    decreases |frags|
  {
    if frags != [] {
      FilledSize(frags[1..], b);
      assert (HEADER_LENGTH + b) * |frags| == (HEADER_LENGTH + b) * (|frags| - 1) + (HEADER_LENGTH + b);
    }
  }

  /** So many chunks of b bytes each do not fit the size limit. */
  predicate SizeStops(l: Limits, b: nat) {
    l.maxMessageSize > 0 && l.maxMessageSize < (HEADER_LENGTH + b) * (l.maxChunkCount + 1)
  }

  /** The 16-bit count never exceeds a larger limit: some message is sent in more chunks
      than such a limit allows, unless the size limit is in the way. */
  lemma LargeChunkLimitIgnored(l: Limits, b: nat) returns (frags: seq<Bytes>)
    requires l.maxChunkCount >= 65535 && !SizeStops(l, b)
    ensures Filled(frags, b) && !Aborted(Chunks(frags, 0, FRESH, l))
    ensures |Chunks(frags, 0, FRESH, l)| > l.maxChunkCount
  {
    var full: Bytes := seq(b, _ => 0);
    frags := seq(l.maxChunkCount + 1, _ => full);
    FilledSize(frags, b);
    SentWhole(frags, 0, FRESH, l);
    ChunksCarryAll(frags, 0, FRESH, l);
  }

  lemma SizeStopsIt(frags: seq<Bytes>, error: UInt32, l: Limits, b: nat)
    requires Filled(frags, b) && !Aborted(Chunks(frags, error, FRESH, l)) && SizeStops(l, b)
    ensures |Chunks(frags, error, FRESH, l)| <= l.maxChunkCount
  {
    LimitsHold(frags, error, l);
    WireSizeIs(frags, error, FRESH, l);
    ChunksCarryAll(frags, error, FRESH, l);
    FilledSize(frags, b);
    if |frags| >= l.maxChunkCount + 1 {
      Monotone(HEADER_LENGTH + b, l.maxChunkCount + 1, |frags|);
    }
  }

  lemma Monotone(k: nat, m: nat, n: nat)
    requires m <= n
    ensures k * m <= k * n
  {
  }

  /** The chunk limit of the peer is kept by every message whose buffers carry at least b
      bytes each, if and only if it is below 65535, or the size limit stops the message
      before. */
  lemma ChunkLimitKept(l: Limits, b: nat)
    requires l.maxChunkCount > 0
    ensures (forall frags: seq<Bytes>, error: UInt32 ::
               Filled(frags, b) && !Aborted(Chunks(frags, error, FRESH, l)) ==>
                 |Chunks(frags, error, FRESH, l)| <= l.maxChunkCount)
            <==> l.maxChunkCount < 65535 || SizeStops(l, b)
  {
    hide Chunks, Aborted, SizeStops;
    if l.maxChunkCount < 65535 || SizeStops(l, b) {
      forall frags: seq<Bytes>, error: UInt32 | Filled(frags, b) && !Aborted(Chunks(frags, error, FRESH, l))
        ensures |Chunks(frags, error, FRESH, l)| <= l.maxChunkCount
      {
        if l.maxChunkCount < 65535 { LimitsHold(frags, error, l); } else { SizeStopsIt(frags, error, l, b); }
      }
    } else {
      var frags := LargeChunkLimitIgnored(l, b);
    }
  }
}
