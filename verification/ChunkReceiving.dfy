/** The receiving half of ua_securechannel.c as functions: one iteration of the loop of
    UA_SecureChannel_processChunks, and the loop. */
module ChunkReceiving {
  import opened Sequences
  import opened UaBytes

  const MSG := 0x47534D
  const OPN := 0x4E504F
  const CLO := 0x4F4C43
  const FINAL := 0x46
  const INTERMEDIATE := 0x43
  const ABORT := 0x41
  const HEADER_LENGTH := 24

  /** size_t is 64 bits wide. */
  const SIZE_MOD: int := 0x1_0000_0000_0000_0000

  function SizeSub(a: nat, b: nat): (r: nat)
    ensures r < SIZE_MOD
  {
    (a - b) % SIZE_MOD
  }

  function SizeAdd(a: nat, b: nat): (r: nat)
    ensures r < SIZE_MOD
  {
    (a + b) % SIZE_MOD
  }

  datatype Token = Token(channelId: UInt32, tokenId: UInt32)
  datatype Entry = Entry(requestId: UInt32, bytes: Bytes)
  datatype Event = Message(typ: nat, requestId: UInt32, bytes: Bytes) | ErrorMessage(error: UInt32, reason: Bytes)

  /** What processing changes in a UA_SecureChannel, and the callbacks made so far. */
  datatype Channel = Channel(token: Token, next: Token, recvSeq: UInt32, chunks: seq<Entry>, events: seq<Event>)

  datatype Status = Good | BadDecodingError | BadCommunicationError

  /** The position of the first entry for a request, |chunks| if there is none. */
  function FindEntry(chunks: seq<Entry>, requestId: UInt32): (i: nat)
    ensures i <= |chunks|
    ensures i < |chunks| ==> chunks[i].requestId == requestId
    ensures forall j | 0 <= j < i :: chunks[j].requestId != requestId
  {
    if chunks == [] || chunks[0].requestId == requestId then 0 else 1 + FindEntry(chunks[1..], requestId)
  }

  function Without(chunks: seq<Entry>, i: nat): seq<Entry>
    requires i < |chunks|
  {
    chunks[..i] + chunks[i + 1..]
  }

  /** UA_SecureChannel_removeChunk */
  function RemoveChunk(chunks: seq<Entry>, requestId: UInt32): seq<Entry> {
    var i := FindEntry(chunks, requestId);
    if i < |chunks| then Without(chunks, i) else chunks
  }

  /** UA_SecureChannel_appendChunk for a chunk that fits: a new entry goes to the head. */
  function AppendChunk(chunks: seq<Entry>, requestId: UInt32, piece: Bytes): seq<Entry> {
    var i := FindEntry(chunks, requestId);
    if i < |chunks| then chunks[i := chunks[i].(bytes := chunks[i].bytes + piece)]
    else [Entry(requestId, piece)] + chunks
  }

  /** The message UA_SecureChannel_finalizeChunk puts together for a chunk that fits. */
  function Finalized(chunks: seq<Entry>, requestId: UInt32, piece: Bytes): Bytes {
    var i := FindEntry(chunks, requestId);
    if i < |chunks| then chunks[i].bytes + piece else piece
  }

  /** UA_SecureChannel_processSequenceNumber: is the number accepted? */
  predicate SequenceOk(recvSeq: UInt32, number: UInt32) {
    || number == (recvSeq + 1) % TWO32
    || ((recvSeq + 1) % TWO32 > 4294966271 && number < 1024)
  }

  function RevolveTokens(c: Channel): Channel {
    if c.next.tokenId == 0 then c else c.(token := c.next, next := Token(0, 0))
  }

  /** The checks of the symmetric header; None is BADCOMMUNICATIONERROR. */
  datatype Checked = Rejected(c: Channel) | Accepted(c: Channel)

  function CheckSymmetric(c: Channel, tokenId: UInt32, number: UInt32): Checked {
    if tokenId != c.token.tokenId && tokenId != c.next.tokenId then Rejected(c)
    else
      var c1 := if tokenId != c.token.tokenId then RevolveTokens(c) else c;
      if SequenceOk(c1.recvSeq, number) then Accepted(c1.(recvSeq := number)) else Rejected(c1)
  }

  /** A chunk is accepted under the current token or the next one, which then becomes the
      current one, if there is a next one at all. */
  lemma TokenChosen(c: Channel, tokenId: UInt32, number: UInt32)
    ensures var r := CheckSymmetric(c, tokenId, number);
            && (r.Accepted? <==> (tokenId == c.token.tokenId || tokenId == c.next.tokenId) && SequenceOk(c.recvSeq, number))
            && r.c.chunks == c.chunks && r.c.events == c.events
            && r.c.recvSeq == (if r.Accepted? then number else c.recvSeq)
            && (if tokenId != c.token.tokenId && tokenId == c.next.tokenId && tokenId != 0
                then r.c.token == c.next && r.c.next == Token(0, 0)
                else r.c.token == c.token && r.c.next == c.next)
  {
  }

  /** One iteration either goes on at an offset, or leaves the loop. */
  datatype Iteration = Advance(c: Channel, offset: nat) | Leave(c: Channel, status: Status)

  /** The chunk itself, its header being decoded: offset is behind the header, and length is
      what the header says about the rest, wrapped around if it says less than nothing. */
  function ProcessChunk(c: Channel, mem: Bytes, len: nat, offset: nat, typ: UInt32, requestId: UInt32, length: nat): Iteration
    requires offset <= len <= |mem|
  {
    var kind := typ / 0x1000000;
    var fits := length <= len - offset;
    var piece := if fits then mem[offset..offset + length] else [];
    var end := SizeAdd(offset, length);
    var removed := c.(chunks := RemoveChunk(c.chunks, requestId));
    if kind == INTERMEDIATE then
      Advance(if fits then c.(chunks := AppendChunk(c.chunks, requestId, piece)) else removed, end)
    else if kind == FINAL then
      var message := Finalized(c.chunks, requestId, piece);
      if fits && |message| > 0 then
        Advance(removed.(events := c.events + [Message(typ % 0x1000000, requestId, message)]), end)
      else Advance(removed, end)
    else if kind == ABORT then Advance(removed, end)
    else Leave(c, BadDecodingError)
  }

  /** An error message: UA_TcpMessageHeader, error code, reason. */
  function ProcessError(c: Channel, mem: Bytes, len: nat, offset: nat): Iteration
    requires offset <= len <= |mem|
  {
    if offset + 16 > len then Leave(c, BadDecodingError)
    else
      var error, signed := Rd32(mem, offset + 8), Rd32(mem, offset + 12);
      var n := if signed >= 0x8000_0000 then 0 else signed;
      if offset + 16 + n > len then Leave(c, BadDecodingError)
      else Advance(c.(events := c.events + [ErrorMessage(error, mem[offset + 16..offset + 16 + n])]), offset + 16 + n)
  }

  /** One pass through the loop.  mem is memory: the chunks are its first len bytes, and the
      test for ERR may look at bytes behind them. */
  function Iterate(c: Channel, mem: Bytes, len: nat, offset: nat): Iteration
    requires offset <= len && len + 2 < |mem|
  {
    if len > 3 && mem[offset] == 0x45 && mem[offset + 1] == 0x52 && mem[offset + 2] == 0x52 then
      ProcessError(c, mem, len, offset)
    else if offset + 12 > len then Leave(c, BadDecodingError)
    else
      var typ, size, channelId := Rd32(mem, offset), Rd32(mem, offset + 4), Rd32(mem, offset + 8);
      if channelId != c.token.channelId then Leave(c, BadCommunicationError)
      else if typ % 0x1000000 == OPN then
        ProcessChunk(c, mem, len, offset + 12, typ, 0, SizeSub(size, 12))
      else if offset + 24 > len then Leave(c, BadCommunicationError)
      else
        match CheckSymmetric(c, Rd32(mem, offset + 12), Rd32(mem, offset + 16))
        case Rejected(c1) => Leave(c1, BadCommunicationError)
        case Accepted(c1) =>
          ProcessChunk(c1, mem, len, offset + 24, typ, Rd32(mem, offset + 20), SizeSub(size, 24))
  }

  /** The loop: it ends with a status, or it comes back to the same offset twice. */
  datatype Processed = Done(c: Channel, status: Status) | Stuck(c: Channel)

  function Process(c: Channel, mem: Bytes, len: nat, offset: nat): Processed
    requires offset <= len && len + 2 < |mem|
    decreases len - offset, 1
  {
    match Iterate(c, mem, len, offset)
    case Leave(c1, status) => Done(c1, status)
    case Advance(c1, end) =>
      if end >= len then Done(c1, Good)
      else if end > offset then Process(c1, mem, len, end)
      else Again(c1, mem, len, offset)
  }

  /** The iteration did not move; the state may have changed, so there is one more. */
  function Again(c: Channel, mem: Bytes, len: nat, offset: nat): Processed
    requires offset <= len && len + 2 < |mem|
    decreases len - offset, 0
  {
    match Iterate(c, mem, len, offset)
    case Leave(c1, status) => Done(c1, status)
    case Advance(c1, end) => Stuck(c1)
  }

  // ------------------------------------------------------------ progress

  /** The offset after a chunk is the start of the chunk plus the size its header gives, also
      when that size is smaller than the header and the subtraction wraps around. */
  lemma NextFrame(offset: nat, header: nat, size: nat)
    requires offset + size < SIZE_MOD && header <= SIZE_MOD
    ensures SizeAdd(offset + header, SizeSub(size, header)) == offset + size
  {
    if size >= header {
      assert SizeSub(size, header) == size - header;
    } else {
      assert (size - header) % SIZE_MOD == size - header + SIZE_MOD;
      assert (offset + size + SIZE_MOD) % SIZE_MOD == offset + size;
    }
  }

  predicate StartsErr(mem: Bytes, len: nat, offset: nat)
    requires offset + 2 < |mem|
  {
    len > 3 && mem[offset] == 0x45 && mem[offset + 1] == 0x52 && mem[offset + 2] == 0x52
  }

  /** When the loop is left, and with which status: BADDECODINGERROR for what is too short for
      its first header, for an error message that is too short, and for a chunk of no known
      kind; BADCOMMUNICATIONERROR for a foreign channel, for what is too short for the second
      header, and for a token or a sequence number that is not accepted. */
  lemma Refused(c: Channel, mem: Bytes, len: nat, offset: nat)
    requires offset <= len && len + 2 < |mem|
    ensures var r := Iterate(c, mem, len, offset);
            var left := len - offset;
            if StartsErr(mem, len, offset) then
              r.Leave? <==> left < 16 || (Rd32(mem, offset + 12) < 0x8000_0000 && left < 16 + Rd32(mem, offset + 12))
            else if left < 12 then r == Leave(c, BadDecodingError)
            else if Rd32(mem, offset + 8) != c.token.channelId then r == Leave(c, BadCommunicationError)
            else
              var known := mem[offset + 3] == 0x43 || mem[offset + 3] == 0x46 || mem[offset + 3] == 0x41;
              if mem[offset..offset + 3] == [0x4F, 0x50, 0x4E] then
                (r.Leave? <==> !known) && (r.Leave? ==> r.status == BadDecodingError)
              else if left < 24 then r == Leave(c, BadCommunicationError)
              else
                var accepted := CheckSymmetric(c, Rd32(mem, offset + 12), Rd32(mem, offset + 16)).Accepted?;
                && (r.Leave? <==> !accepted || !known)
                && (r.Leave? ==> r.status == if accepted then BadDecodingError else BadCommunicationError)
    ensures StartsErr(mem, len, offset) && Iterate(c, mem, len, offset).Leave? ==>
              Iterate(c, mem, len, offset) == Leave(c, BadDecodingError)
  {
    hide CheckSymmetric, AppendChunk, RemoveChunk, Finalized, Rd32;
    if len - offset >= 12 { TypeOf(mem, offset); }
  }

  /** The type and the kind in the first four bytes. */
  lemma TypeOf(mem: Bytes, i: nat)
    requires i + 4 <= |mem|
    ensures Rd32(mem, i) / 0x1000000 == mem[i + 3]
    ensures Rd32(mem, i) % 0x1000000 == OPN <==> mem[i..i + 3] == [0x4F, 0x50, 0x4E]
  {
    var low := (mem[i] as int) + 256 * (mem[i + 1] as int) + 65536 * (mem[i + 2] as int);
    assert Rd32(mem, i) == low + 0x1000000 * (mem[i + 3] as int);
    assert low < 0x1000000;
    assert Rd32(mem, i) % 0x1000000 == low && Rd32(mem, i) / 0x1000000 == mem[i + 3];
    assert low == OPN <==> mem[i] == 0x4F && mem[i + 1] == 0x50 && mem[i + 2] == 0x4E;
  }

  /** Where an iteration that stays in the loop goes on. */
  lemma IterationAdvances(c: Channel, mem: Bytes, len: nat, offset: nat)
    requires offset <= len && len + 2 < |mem| && len + TWO32 < SIZE_MOD
    ensures var r := Iterate(c, mem, len, offset);
            r.Advance? ==>
              if StartsErr(mem, len, offset) then offset + 16 <= r.offset <= len
              else offset + 12 <= len && r.offset == offset + Rd32(mem, offset + 4)
  {
    hide Rd32, CheckSymmetric, AppendChunk, RemoveChunk, Finalized;
    if offset + 12 <= len {
      NextFrame(offset, 12, Rd32(mem, offset + 4));
      NextFrame(offset, 24, Rd32(mem, offset + 4));
    }
  }

  /** An error message in the frame at offset is as long as the frame, or goes beyond the
      buffer, so that it is not decoded. */
  predicate ErrorFits(mem: Bytes, len: nat, offset: nat)
    requires offset + 16 <= len && len + 2 < |mem|
  {
    StartsErr(mem, len, offset) ==>
      (Rd32(mem, offset + 4) == ErrorLength(mem, offset) || offset + ErrorLength(mem, offset) > len)
  }

  /** Whatever the channel, an iteration that stays in the loop lands on the next frame,
      exactly if an error message there fits its frame. */
  lemma LandsOnFrame(mem: Bytes, len: nat, offset: nat)
    requires offset + 16 <= len && len + 2 < |mem| && len + TWO32 < SIZE_MOD
    ensures (forall c: Channel :: Iterate(c, mem, len, offset).Advance? ==>
                                    Iterate(c, mem, len, offset).offset == offset + Rd32(mem, offset + 4))
            <==> ErrorFits(mem, len, offset)
  {
    hide Iterate, Rd32;
    forall c: Channel | Iterate(c, mem, len, offset).Advance?
      ensures if StartsErr(mem, len, offset) then Iterate(c, mem, len, offset).offset == offset + ErrorLength(mem, offset) <= len
              else Iterate(c, mem, len, offset).offset == offset + Rd32(mem, offset + 4)
    {
      IterationAdvances(c, mem, len, offset);
      if StartsErr(mem, len, offset) { ErrorAdvances(c, mem, len, offset); }
    }
    var c := Channel(Token(0, 0), Token(0, 0), 0, [], []);
    if StartsErr(mem, len, offset) { ErrorAdvances(c, mem, len, offset); }
  }

  /** The buffer from offset on consists of frames of at least 16 bytes, and error messages
      fit their frames. */
  predicate Framed(mem: Bytes, len: nat, offset: nat)
    requires len + 2 < |mem|
    decreases len - offset
  {
    || offset == len
    || (offset + 16 <= len &&
        var size := Rd32(mem, offset + 4);
        && 16 <= size <= len - offset
        && ErrorFits(mem, len, offset)
        && Framed(mem, len, offset + size))
  }

  function ErrorLength(mem: Bytes, offset: nat): nat
    requires offset + 16 <= |mem|
  {
    16 + if Rd32(mem, offset + 12) >= 0x8000_0000 then 0 else Rd32(mem, offset + 12)
  }

  /** On framed buffers every iteration that stays in the loop moves to the next frame, so
      the loop ends. */
  lemma {:induction false} FramedEnds(c: Channel, mem: Bytes, len: nat, offset: nat)
    requires offset < len && len + 2 < |mem| && len + TWO32 < SIZE_MOD && Framed(mem, len, offset)
    ensures Process(c, mem, len, offset).Done?
    ensures var r := Iterate(c, mem, len, offset);
            r.Advance? ==> r.offset == offset + Rd32(mem, offset + 4) >= offset + 16 && Framed(mem, len, r.offset)
    decreases len - offset
  {
    hide ProcessChunk, CheckSymmetric, Rd32;
    IterationAdvances(c, mem, len, offset);
    if StartsErr(mem, len, offset) { ErrorAdvances(c, mem, len, offset); }
    var r := Iterate(c, mem, len, offset);
    if r.Advance? && r.offset < len {
      FramedEnds(r.c, mem, len, r.offset);
    }
  }

  lemma ErrorAdvances(c: Channel, mem: Bytes, len: nat, offset: nat)
    requires offset + 16 <= len && len + 2 < |mem| && StartsErr(mem, len, offset)
    ensures var r := Iterate(c, mem, len, offset);
            if offset + ErrorLength(mem, offset) <= len then r.Advance? && r.offset == offset + ErrorLength(mem, offset)
            else r.Leave?
  {
    hide Rd32;
  }

  // ------------------------------------------------------------ the chunk list as a map

  ghost predicate Distinct(chunks: seq<Entry>) {
    forall i, j | 0 <= i < j < |chunks| :: chunks[i].requestId != chunks[j].requestId
  }

  /** What is stored for a request; nothing and an empty entry are the same to finalizeChunk. */
  function Stored(chunks: seq<Entry>, requestId: UInt32): Bytes {
    var i := FindEntry(chunks, requestId);
    if i < |chunks| then chunks[i].bytes else []
  }

  lemma FindUnique(chunks: seq<Entry>, i: nat)
    requires Distinct(chunks) && i < |chunks|
    ensures FindEntry(chunks, chunks[i].requestId) == i
  {
  }

  /** Appending keeps one entry for each request and changes that of one request only. */
  lemma AppendRefines(chunks: seq<Entry>, requestId: UInt32, piece: Bytes, other: UInt32)
    requires Distinct(chunks)
    ensures var r := AppendChunk(chunks, requestId, piece);
            && Distinct(r)
            && Stored(r, other) == if other == requestId then Stored(chunks, other) + piece else Stored(chunks, other)
  {
    var i, k := FindEntry(chunks, requestId), FindEntry(chunks, other);
    var r := AppendChunk(chunks, requestId, piece);
    if i < |chunks| {
      assert Distinct(r);
      if k < |chunks| { assert r[k].requestId == other; FindUnique(r, k); }
    } else {
      assert [] + piece == piece;
      if k < |chunks| { assert r[k + 1] == chunks[k]; FindUnique(r, k + 1); }
    }
  }

  lemma RemoveKeepsDistinct(chunks: seq<Entry>, i: nat)
    requires Distinct(chunks) && i < |chunks|
    ensures Distinct(Without(chunks, i))
    ensures forall j | 0 <= j < |chunks| - 1 :: Without(chunks, i)[j] == chunks[if j < i then j else j + 1]
  {
  }

  /** Where an entry is after another one has been removed. */
  lemma FindWithout(chunks: seq<Entry>, i: nat, other: UInt32)
    requires Distinct(chunks) && i < |chunks|
    ensures var (r, k) := (Without(chunks, i), FindEntry(chunks, other));
            FindEntry(r, other) == if k == i || k == |chunks| then |r| else if k < i then k else k - 1
  {
    hide Distinct, Without;
    var (r, k) := (Without(chunks, i), FindEntry(chunks, other));
    RemoveKeepsDistinct(chunks, i);
    assert |r| == |chunks| - 1 by { WithoutSize(chunks, i); }
    if k < |chunks| && k != i {
      assert r[if k < i then k else k - 1] == chunks[k];
      FindUnique(r, if k < i then k else k - 1);
    } else {
      NotThere(chunks, i, other);
    }
  }

  lemma WithoutSize(chunks: seq<Entry>, i: nat)
    requires i < |chunks|
    ensures |Without(chunks, i)| == |chunks| - 1
  {
  }

  lemma NotThere(chunks: seq<Entry>, i: nat, other: UInt32)
    requires Distinct(chunks) && i < |chunks| && (FindEntry(chunks, other) == i || FindEntry(chunks, other) == |chunks|)
    ensures FindEntry(Without(chunks, i), other) == |chunks| - 1
  {
    var r := Without(chunks, i);
    forall j | 0 <= j < |r| ensures r[j].requestId != other {
      assert r[j] == chunks[if j < i then j else j + 1];
    }
  }

  /** Removing forgets one request and no other. */
  lemma RemoveRefines(chunks: seq<Entry>, requestId: UInt32, other: UInt32)
    requires Distinct(chunks)
    ensures var r := RemoveChunk(chunks, requestId);
            && Distinct(r) && FindEntry(r, requestId) == |r|
            && Stored(r, other) == if other == requestId then [] else Stored(chunks, other)
  {
    hide Distinct, Without;
    var i := FindEntry(chunks, requestId);
    if i < |chunks| {
      RemoveKeepsDistinct(chunks, i);
      WithoutSize(chunks, i);
      FindWithout(chunks, i, requestId);
      FindWithout(chunks, i, other);
    }
  }

  lemma FinalizedIs(chunks: seq<Entry>, requestId: UInt32, piece: Bytes)
    ensures Finalized(chunks, requestId, piece) == Stored(chunks, requestId) + piece
  {
    assert [] + piece == piece;
  }

  lemma ChunkKeepsDistinct(c: Channel, mem: Bytes, len: nat, offset: nat, typ: UInt32, requestId: UInt32, length: nat)
    requires offset <= len <= |mem| && Distinct(c.chunks)
    ensures Distinct(ProcessChunk(c, mem, len, offset, typ, requestId, length).c.chunks)
  {
    hide Distinct, AppendChunk, RemoveChunk, Finalized;
    RemoveRefines(c.chunks, requestId, 0);
    if length <= len - offset {
      AppendRefines(c.chunks, requestId, mem[offset..offset + length], 0);
    }
  }

  /** Whatever arrives, the list never has two entries for one request. */
  lemma IterateKeepsDistinct(c: Channel, mem: Bytes, len: nat, offset: nat)
    requires offset <= len && len + 2 < |mem| && Distinct(c.chunks)
    ensures Distinct(Iterate(c, mem, len, offset).c.chunks)
  {
    hide Distinct, ProcessChunk, Rd32, SequenceOk;
    if offset + 12 <= len {
      var typ, size := Rd32(mem, offset), Rd32(mem, offset + 4);
      ChunkKeepsDistinct(c, mem, len, offset + 12, typ, 0, SizeSub(size, 12));
      if offset + 24 <= len {
        var checked := CheckSymmetric(c, Rd32(mem, offset + 12), Rd32(mem, offset + 16));
        ChunkKeepsDistinct(checked.c, mem, len, offset + 24, typ, Rd32(mem, offset + 20), SizeSub(size, 24));
      }
    }
  }

  // ------------------------------------------------------------ when the loop does not end

  lemma SameNumberRejected(number: UInt32)
    ensures !SequenceOk(number, number)
  {
  }

  /** An iteration that does not move decodes an OPN chunk of size 0, or is the last. */
  lemma {:induction false} NoMoveIsForever(c: Channel, mem: Bytes, len: nat, offset: nat)
    requires offset < len && len + 2 < |mem| && len + TWO32 < SIZE_MOD && Distinct(c.chunks)
    requires Iterate(c, mem, len, offset).Advance? && Iterate(c, mem, len, offset).offset <= offset
    ensures var c1 := Iterate(c, mem, len, offset).c;
            Again(c1, mem, len, offset).Stuck? ==> Iterate(c1, mem, len, offset) == Advance(c1, offset)
  {
    hide Rd32, Distinct, RemoveChunk, AppendChunk, Finalized;
    IterationAdvances(c, mem, len, offset);
    var typ := Rd32(mem, offset);
    assert Rd32(mem, offset + 4) == 0;
    assert SizeSub(0, 12) == SIZE_MOD - 12 && SizeSub(0, 24) == SIZE_MOD - 24;
    if typ % 0x1000000 == OPN {
      RemoveRefines(c.chunks, 0, 0);
      RemoveAgain(c.chunks, 0);
      NextFrame(offset, 12, 0);
    } else {
      SameNumberRejected(Rd32(mem, offset + 16));
    }
  }

  lemma RemoveAgain(chunks: seq<Entry>, requestId: UInt32)
    requires Distinct(chunks)
    ensures RemoveChunk(RemoveChunk(chunks, requestId), requestId) == RemoveChunk(chunks, requestId)
  {
    RemoveRefines(chunks, requestId, requestId);
  }

  /** The loop fails to end only if it has come to an iteration that changes nothing. */
  lemma {:induction false} StuckIsForever(c: Channel, mem: Bytes, len: nat, offset: nat) returns (at: nat)
    requires offset < len && len + 2 < |mem| && len + TWO32 < SIZE_MOD && Distinct(c.chunks)
    requires Process(c, mem, len, offset).Stuck?
    ensures offset <= at < len
    ensures var c1 := Process(c, mem, len, offset).c; Iterate(c1, mem, len, at) == Advance(c1, at)
    decreases len - offset
  {
    hide Iterate, Distinct;
    var r := Iterate(c, mem, len, offset);
    IterateKeepsDistinct(c, mem, len, offset);
    if r.offset > offset {
      at := StuckIsForever(r.c, mem, len, r.offset);
    } else {
      NoMoveIsForever(c, mem, len, offset);
      at := offset;
    }
  }
}
