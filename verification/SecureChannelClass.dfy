/** ua_securechannel.c on the fields of a UA_SecureChannel.  The send callback of the
    connection appends to sent, the message callback of the application to events. */
module SecureChannelClass {
  import opened UaBytes
  import opened ChunkReceiving
  import opened ChunkSending

  /** A chunk on the wire: header, symmetric security header, sequence header, body. */
  function Encode(token: Token, typ: nat, number: UInt32, requestId: UInt32, c: Chunk): (b: Bytes)
    ensures |b| == HEADER_LENGTH + |c.body|
  {
    Le32((typ + c.kind * 0x1000000) % TWO32) + Le32((HEADER_LENGTH + |c.body|) % TWO32) + Le32(token.channelId)
    + Le32(token.tokenId) + Le32(number) + Le32(requestId) + c.body
  }

  /** The chunks of one message, numbered from number + 1 on. */
  function EncodeAll(token: Token, typ: nat, number: UInt32, requestId: UInt32, cs: seq<Chunk>): (r: seq<Bytes>)
    ensures |r| == |cs|
    decreases |cs|
  {
    if cs == [] then []
    else
      var next: UInt32 := (number + 1) % TWO32;
      [Encode(token, typ, next, requestId, cs[0])] + EncodeAll(token, typ, next, requestId, cs[1..])
  }

  /** UA_ChunkInfo */
  class ChunkInfo {
    const requestId: UInt32
    const messageType: nat
    var chunksSoFar: nat
    var messageSizeSoFar: nat
    var final: bool
    var errorCode: UInt32

    constructor (requestId: UInt32, messageType: nat)
      ensures this.requestId == requestId && this.messageType == messageType
      ensures State() == FRESH && !final && errorCode == 0
    {
      this.requestId, this.messageType := requestId, messageType;
      chunksSoFar, messageSizeSoFar, final, errorCode := 0, 0, false, 0;
    }

    ghost function State(): Progress
      reads this
    {
      Progress(chunksSoFar, messageSizeSoFar)
    }
  }

  function MessageType(typeId: nat): (t: nat)
    ensures t < 0x1000000
  {
    if typeId == 446 || typeId == 449 then OPN
    else if typeId == 452 || typeId == 455 then CLO
    else MSG
  }

  class SecureChannel {
    const limits: Limits
    var securityToken: Token
    var nextSecurityToken: Token
    var receiveSequenceNumber: UInt32
    var sendSequenceNumber: UInt32
    var chunks: seq<Entry>
    var sent: seq<Bytes>
    var events: seq<Event>

    constructor (limits: Limits, token: Token)
      ensures this.limits == limits && securityToken == token && nextSecurityToken == Token(0, 0)
      ensures receiveSequenceNumber == 0 && sendSequenceNumber == 0 && chunks == [] && sent == [] && events == []
    {
      this.limits := limits;
      securityToken, nextSecurityToken := token, Token(0, 0);
      receiveSequenceNumber, sendSequenceNumber, chunks, sent, events := 0, 0, [], [], [];
    }

    // ---------------------------------------------------------- sending

    /** UA_SecureChannel_sendChunk; payload is what stands in the buffer behind the room
        for the header. */
    method SendChunk(ci: ChunkInfo, payload: Bytes) returns (status: UInt32)
      modifies this`sent, this`sendSequenceNumber, ci
      ensures var c := ChunkFor(old(ci.State()), payload, old(ci.final), old(ci.errorCode), limits);
              && sendSequenceNumber == (old(sendSequenceNumber) + 1) % TWO32
              && sent == old(sent) + [Encode(securityToken, ci.messageType, sendSequenceNumber, ci.requestId, c)]
              && ci.State() == After(old(ci.State()), c)
              && ci.final == (old(ci.final) || c.kind == ABORT)
              && (c.kind == ABORT <==> ci.errorCode != 0)
      ensures status == ci.errorCode
    {
      var offset := |payload| + HEADER_LENGTH;
      if ci.messageSizeSoFar + offset > limits.maxMessageSize && limits.maxMessageSize > 0 {
        ci.errorCode := BADRESPONSETOOLARGE;
      }
      ci.chunksSoFar := (ci.chunksSoFar + 1) % 65536;
      if ci.chunksSoFar > limits.maxChunkCount && limits.maxChunkCount > 0 {
        ci.errorCode := BADRESPONSETOOLARGE;
      }
      var kind, body := INTERMEDIATE, payload;
      if ci.errorCode == 0 {
        if ci.final { kind := FINAL; }
      } else {
        ci.final := true;
        kind := ABORT;
        body := Le32(ci.errorCode) + Le32(0xFFFF_FFFF);
        offset := HEADER_LENGTH + |body|;
      }
      ci.messageSizeSoFar := ci.messageSizeSoFar + offset;
      sendSequenceNumber := (sendSequenceNumber + 1) % TWO32;
      sent := sent + [Le32((ci.messageType + kind * 0x1000000) % TWO32) + Le32(offset % TWO32) + Le32(securityToken.channelId)
                      + Le32(securityToken.tokenId) + Le32(sendSequenceNumber) + Le32(ci.requestId) + body];
      status := ci.errorCode;
    }

    /** The chunks todo, sent from now on, make up what has been promised: sent would be
        goal and the sequence number end. */
    ghost predicate Owes(goal: seq<Bytes>, end: UInt32, ci: ChunkInfo, todo: seq<Chunk>)
      reads this
    {
      && goal == sent + EncodeAll(securityToken, ci.messageType, sendSequenceNumber, ci.requestId, todo)
      && end == (sendSequenceNumber + |todo|) % TWO32
    }

    /** SendChunk on the first of the chunks that are still owed. */
    method SendOwed(ci: ChunkInfo, payload: Bytes, ghost todo: seq<Chunk>, ghost goal: seq<Bytes>, ghost end: UInt32)
      returns (status: UInt32)
      requires Owes(goal, end, ci, todo)
      requires todo != [] && todo[0] == ChunkFor(ci.State(), payload, ci.final, ci.errorCode, limits)
      modifies this`sent, this`sendSequenceNumber, ci
      ensures Owes(goal, end, ci, todo[1..])
      ensures ci.State() == After(old(ci.State()), todo[0])
      ensures ci.final == (old(ci.final) || todo[0].kind == ABORT)
      ensures (todo[0].kind == ABORT <==> ci.errorCode != 0) && status == ci.errorCode
    {
      hide Encode, TooLarge, ChunkFor;
      EncodeFirst(securityToken, ci.messageType, sendSequenceNumber, ci.requestId, todo);
      NumberStep(sendSequenceNumber, |todo| - 1);
      status := SendChunk(ci, payload);
    }

    /** UA_encodeBinary as the sender sees it: it fills the buffers with frags, calls
        SendChunk at each boundary, stops at its first error, and otherwise ends with
        encodeError and the last of frags in the buffer. */
    method EncodeBinary(ci: ChunkInfo, frags: seq<Bytes>, encodeError: UInt32, ghost goal: seq<Bytes>, ghost end: UInt32)
      returns (status: UInt32, ghost todo: seq<Chunk>)
      requires frags != []
      requires !ci.final && ci.errorCode == 0
      requires Owes(goal, end, ci, Chunks(frags, encodeError, ci.State(), limits))
      modifies this`sent, this`sendSequenceNumber, ci
      ensures Owes(goal, end, ci, todo)
      ensures ci.final ==> todo == [] && status != 0 && Aborted(old(Chunks(frags, encodeError, ci.State(), limits)))
      ensures !ci.final ==>
                && ci.errorCode == 0 && status == encodeError
                && todo == [ChunkFor(ci.State(), frags[|frags| - 1], true, encodeError, limits)]
                && Aborted(todo) == Aborted(old(Chunks(frags, encodeError, ci.State(), limits)))
    {
      hide Encode, TooLarge, ChunkFor, Owes;
      var i := 0;
      ghost var all := Chunks(frags, encodeError, ci.State(), limits);
      todo := all;
      assert frags[0..] == frags;
      while i < |frags| - 1
        invariant i < |frags| && ci.errorCode == 0 && !ci.final
        invariant todo == Chunks(frags[i..], encodeError, ci.State(), limits)
        invariant Owes(goal, end, ci, todo) && Aborted(todo) == Aborted(all)
      {
        assert frags[i..][1..] == frags[i + 1..];
        ghost var was := todo;
        status := SendOwed(ci, frags[i], todo, goal, end);
        todo := todo[1..];
        ChunksTail(frags[i..], encodeError, was, todo);
        if status != 0 { return; }
        i := i + 1;
      }
      assert frags[i..] == [frags[i]];
      status := encodeError;
    }

    /** UA_SecureChannel_sendBinaryMessage */
    method SendBinaryMessage(requestId: UInt32, typeId: nat, frags: seq<Bytes>, encodeError: UInt32) returns (status: UInt32)
      requires frags != []
      modifies this`sent, this`sendSequenceNumber
      ensures var cs := Chunks(frags, encodeError, FRESH, limits);
              && sent == old(sent) + EncodeAll(securityToken, MessageType(typeId), old(sendSequenceNumber), requestId, cs)
              && sendSequenceNumber == (old(sendSequenceNumber) + |cs|) % TWO32
              && (status == 0 <==> !Aborted(cs))
    {
      hide Encode, TooLarge, ChunkFor, Chunks, After;
      var ci := new ChunkInfo(requestId, MessageType(typeId));
      ghost var all := Chunks(frags, encodeError, FRESH, limits);
      ghost var goal := sent + EncodeAll(securityToken, ci.messageType, sendSequenceNumber, requestId, all);
      ghost var end: UInt32 := (sendSequenceNumber + |all|) % TWO32;
      ghost var todo;
      status, todo := EncodeBinary(ci, frags, encodeError, goal, end);
      if status != 0 {
        if !ci.final {
          ci.errorCode := status;
          LateAbort(ci.State(), frags[|frags| - 1], status, limits);
          var _ := SendOwed(ci, frags[|frags| - 1], todo, goal, end);
        }
      } else {
        ci.final := true;
        status := SendOwed(ci, frags[|frags| - 1], todo, goal, end);
      }
    }

    // ---------------------------------------------------------- receiving

    /** What processing looks at and changes. */
    ghost function Snapshot(): Channel
      reads this
    {
      Channel(securityToken, nextSecurityToken, receiveSequenceNumber, chunks, events)
    }

    /** UA_SecureChannel_revolveTokens */
    method RevolveTokens()
      modifies this`securityToken, this`nextSecurityToken
      ensures Snapshot() == ChunkReceiving.RevolveTokens(old(Snapshot()))
    {
      if nextSecurityToken.tokenId == 0 { return; }
      securityToken := nextSecurityToken;
      nextSecurityToken := Token(0, 0);
    }

    /** UA_SecureChannel_processSequenceNumber */
    method ProcessSequenceNumber(number: UInt32) returns (ok: bool)
      modifies this`receiveSequenceNumber
      ensures ok == SequenceOk(old(receiveSequenceNumber), number)
      ensures receiveSequenceNumber == if ok then number else old(receiveSequenceNumber)
    {
      if number != (receiveSequenceNumber + 1) % TWO32 {
        if (receiveSequenceNumber + 1) % TWO32 > 4294966271 && number < 1024 {
          receiveSequenceNumber := (number - 1) % TWO32;
        } else {
          return false;
        }
      }
      receiveSequenceNumber := (receiveSequenceNumber + 1) % TWO32;
      ok := true;
    }

    /** UA_SecureChannel_removeChunk */
    method RemoveChunk(requestId: UInt32)
      modifies this`chunks
      ensures chunks == ChunkReceiving.RemoveChunk(old(chunks), requestId)
    {
      var i := 0;
      while i < |chunks|
        invariant i <= |chunks| && chunks == old(chunks)
        invariant forall j | 0 <= j < i :: chunks[j].requestId != requestId
      {
        if chunks[i].requestId == requestId {
          FirstIs(chunks, requestId, i);
          chunks := chunks[..i] + chunks[i + 1..];
          return;
        }
        i := i + 1;
      }
    }

    /** UA_SecureChannel_appendChunk */
    method AppendChunk(requestId: UInt32, msg: Bytes, len: nat, offset: nat, chunklength: nat)
      requires offset <= len <= |msg|
      modifies this`chunks
      ensures chunks == if chunklength <= len - offset
                        then ChunkReceiving.AppendChunk(old(chunks), requestId, msg[offset..offset + chunklength])
                        else ChunkReceiving.RemoveChunk(old(chunks), requestId)
    {
      if len - offset < chunklength {
        RemoveChunk(requestId);
        return;
      }
      var i := 0;
      while i < |chunks| && chunks[i].requestId != requestId
        invariant i <= |chunks| && forall j | 0 <= j < i :: chunks[j].requestId != requestId
      {
        i := i + 1;
      }
      FirstIs(chunks, requestId, i);
      if i == |chunks| {
        chunks := [Entry(requestId, [])] + chunks;
        i := 0;
      }
      var piece := msg[offset..offset + chunklength];
      assert [] + piece == piece;
      chunks := chunks[i := chunks[i].(bytes := chunks[i].bytes + piece)];
    }

    /** UA_SecureChannel_finalizeChunk; the empty message stands for the null one. */
    method FinalizeChunk(requestId: UInt32, msg: Bytes, len: nat, offset: nat, chunklength: nat) returns (bytes: Bytes)
      requires offset <= len <= |msg|
      modifies this`chunks
      ensures chunks == ChunkReceiving.RemoveChunk(old(chunks), requestId)
      ensures bytes == if chunklength <= len - offset
                       then Finalized(old(chunks), requestId, msg[offset..offset + chunklength]) else []
    {
      if len - offset < chunklength {
        RemoveChunk(requestId);
        return [];
      }
      var i := 0;
      while i < |chunks| && chunks[i].requestId != requestId
        invariant i <= |chunks| && forall j | 0 <= j < i :: chunks[j].requestId != requestId
      {
        i := i + 1;
      }
      FirstIs(chunks, requestId, i);
      bytes := msg[offset..offset + chunklength];
      if i < |chunks| {
        bytes := chunks[i].bytes + bytes;
        chunks := chunks[..i] + chunks[i + 1..];
      }
    }

    /** The switch over the chunk type. */
    method SwitchChunk(mem: Bytes, len: nat, offset: nat, typ: UInt32, requestId: UInt32, length: nat)
      returns (known: bool, end: nat)
      requires offset <= len <= |mem|
      modifies this`chunks, this`events
      ensures var r := ProcessChunk(old(Snapshot()), mem, len, offset, typ, requestId, length);
              && known == r.Advance? && Snapshot() == r.c
              && (if known then end == r.offset else r.status == BadDecodingError)
    {
      hide Finalized;
      known, end := true, SizeAdd(offset, length);
      var kind := typ / 0x1000000;
      if kind == INTERMEDIATE {
        AppendChunk(requestId, mem, len, offset, length);
      } else if kind == FINAL {
        var message := FinalizeChunk(requestId, mem, len, offset, length);
        if |message| > 0 {
          events := events + [Message(typ % 0x1000000, requestId, message)];
        }
      } else if kind == ABORT {
        RemoveChunk(requestId);
      } else {
        known := false;
      }
    }

    /** The checks of the symmetric security header and the sequence header. */
    method CheckSymmetricHeader(tokenId: UInt32, number: UInt32) returns (ok: bool)
      modifies this`securityToken, this`nextSecurityToken, this`receiveSequenceNumber
      ensures var r := CheckSymmetric(old(Snapshot()), tokenId, number); ok == r.Accepted? && Snapshot() == r.c
    {
      if tokenId != securityToken.tokenId {
        if tokenId != nextSecurityToken.tokenId { return false; }
        RevolveTokens();
      }
      ok := ProcessSequenceNumber(number);
    }

    /** The body of the loop of UA_SecureChannel_processChunks: stay says whether the loop
        condition is looked at next. */
    method ProcessOne(mem: Bytes, len: nat, offset: nat) returns (stay: bool, end: nat, status: Status)
      requires offset <= len && len + 2 < |mem|
      modifies this
      ensures var r := Iterate(old(Snapshot()), mem, len, offset);
              && stay == r.Advance? && Snapshot() == r.c
              && (if stay then end == r.offset && status == Good else status == r.status)
      ensures sent == old(sent) && sendSequenceNumber == old(sendSequenceNumber)
    {
      hide Rd32, CheckSymmetric, ProcessChunk;
      stay, end, status := false, offset, Good;
      if len > 3 && mem[offset] == 0x45 && mem[offset + 1] == 0x52 && mem[offset + 2] == 0x52 {
        if offset + 16 > len { status := BadDecodingError; return; }
        var error, signed := Rd32(mem, offset + 8), Rd32(mem, offset + 12);
        var n := if signed >= 0x8000_0000 then 0 else signed;
        if offset + 16 + n > len { status := BadDecodingError; return; }
        events := events + [ErrorMessage(error, mem[offset + 16..offset + 16 + n])];
        stay, end := true, offset + 16 + n;
        return;
      }
      if offset + 12 > len { status := BadDecodingError; return; }
      var typ, size := Rd32(mem, offset), Rd32(mem, offset + 4);
      if Rd32(mem, offset + 8) != securityToken.channelId { status := BadCommunicationError; return; }
      var header, requestId: UInt32 := 12, 0;
      if typ % 0x1000000 != OPN {
        if offset + 24 > len { status := BadCommunicationError; return; }
        requestId := Rd32(mem, offset + 20);
        var ok := CheckSymmetricHeader(Rd32(mem, offset + 12), Rd32(mem, offset + 16));
        if !ok { status := BadCommunicationError; return; }
        header := 24;
      }
      stay, end := SwitchChunk(mem, len, offset + header, typ, requestId, SizeSub(size, header));
      if !stay { status := BadDecodingError; }
    }

    /** UA_SecureChannel_processChunks.  The precondition only says that the C loop ends. */
    method ProcessChunks(mem: Bytes, len: nat) returns (status: Status)
      requires len + 2 < |mem| && Process(Snapshot(), mem, len, 0).Done?
      modifies this
      ensures Process(old(Snapshot()), mem, len, 0) == Done(Snapshot(), status)
      ensures sent == old(sent) && sendSequenceNumber == old(sendSequenceNumber)
    {
      hide Iterate;
      var offset, still := 0, false;
      while true
        invariant offset <= len && sent == old(sent) && sendSequenceNumber == old(sendSequenceNumber)
        invariant Process(old(Snapshot()), mem, len, 0) ==
                  if still then Again(Snapshot(), mem, len, offset) else Process(Snapshot(), mem, len, offset)
        decreases len - offset, if still then 0 else 1
      {
        var stay, end;
        stay, end, status := ProcessOne(mem, len, offset);
        if !stay || end >= len { return; }
        still := end <= offset;
        if !still { offset := end; }
      }
    }
  }

  lemma FirstIs(chunks: seq<Entry>, requestId: UInt32, i: nat)
    requires i <= |chunks| && (i < |chunks| ==> chunks[i].requestId == requestId)
    requires forall j | 0 <= j < i :: chunks[j].requestId != requestId
    ensures FindEntry(chunks, requestId) == i
  {
  }

  /** A chunk after a failed encoding is an abort, whether or not it is marked final. */
  lemma LateAbort(p: Progress, payload: Bytes, error: UInt32, l: Limits)
    requires error != 0
    ensures ChunkFor(p, payload, true, error, l) == ChunkFor(p, payload, false, error, l)
    ensures ChunkFor(p, payload, true, error, l).kind == ABORT
  {
    hide TooLarge;
  }

  lemma EncodeFirst(token: Token, typ: nat, number: UInt32, requestId: UInt32, cs: seq<Chunk>)
    requires cs != []
    ensures var next: UInt32 := (number + 1) % TWO32;
            EncodeAll(token, typ, number, requestId, cs)
               == [Encode(token, typ, next, requestId, cs[0])] + EncodeAll(token, typ, next, requestId, cs[1..])
  {
  }

  lemma NumberStep(number: UInt32, n: nat)
    ensures ((number + 1) % TWO32 + n) % TWO32 == (number + 1 + n) % TWO32
  {
  }

  /** What is left after the first chunk of a message that has more than one buffer. */
  lemma ChunksTail(frags: seq<Bytes>, error: UInt32, cs: seq<Chunk>, tail: seq<Chunk>)
    requires |frags| > 1 && cs != [] && tail == cs[1..]
    requires exists p, l :: cs == Chunks(frags, error, p, l)
    ensures cs[0].kind == ABORT ==> tail == [] && Aborted(cs)
    ensures cs[0].kind != ABORT ==> tail != [] && Aborted(tail) == Aborted(cs)
  {
    hide TooLarge, ChunkFor;
    var p, l :| cs == Chunks(frags, error, p, l);
    var c := ChunkFor(p, frags[0], false, 0, l);
    if c.kind != ABORT {
      var rest := Chunks(frags[1..], error, After(p, c), l);
      assert cs == [c] + rest && tail == rest;
    }
  }
}
