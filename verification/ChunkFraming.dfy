/** ua_connection.c: cutting a TCP byte stream into whole chunks. */
module ChunkFraming {
  import opened Sequences
  import opened UaBytes

  /** The message type in the first three bytes. */
  predicate KnownType(b: Bytes, i: nat)
    requires i + 3 <= |b|
  {
    var t := b[i..i + 3];
    t == [0x4D, 0x53, 0x47] || t == [0x45, 0x52, 0x52] || t == [0x4F, 0x50, 0x4E] ||
    t == [0x48, 0x45, 0x4C] || t == [0x41, 0x43, 0x4B] || t == [0x43, 0x4C, 0x4F]
  }

  /** A header that completeChunksUntil does not call garbage. */
  predicate GoodHeader(b: Bytes, i: nat, recvBufferSize: nat)
    requires i + 8 <= |b|
  {
    KnownType(b, i) && 16 <= Rd32(b, i + 4) <= recvBufferSize
  }

  /** Where the loop of completeChunksUntil stops, and whether on garbage. */
  function CompleteUntil(b: Bytes, i: nat, recvBufferSize: nat): (r: (nat, bool))
    requires i <= |b|
    ensures i <= r.0 <= |b|
    decreases |b| - i
  {
    if |b| - i < 8 then (i, false)
    else if !GoodHeader(b, i, recvBufferSize) then (i, true)
    else if i + Rd32(b, i + 4) > |b| then (i, false)
    else CompleteUntil(b, i + Rd32(b, i + 4), recvBufferSize)
  }

  datatype Status = Good | BadDecodingError

  /** One call of UA_Connection_completeMessages: what it returns, the message it leaves
      to the caller and the incomplete message it keeps. */
  datatype Completed = Completed(status: Status, message: Bytes, incomplete: Bytes)

  function Complete(incomplete: Bytes, message: Bytes, recvBufferSize: nat): Completed {
    var all := incomplete + message;
    var (until, garbage) := CompleteUntil(all, 0, recvBufferSize);
    if until == |all| then Completed(Good, all, [])
    else if garbage && until == 0 then Completed(BadDecodingError, [], [])
    else if garbage then Completed(Good, all[..until], [])
    else Completed(Good, all[..until], all[until..])
  }

  class Connection {
    const recvBufferSize: nat
    var incompleteMessage: Bytes

    constructor (recvBufferSize: nat)
      ensures this.recvBufferSize == recvBufferSize && incompleteMessage == []
    {
      this.recvBufferSize := recvBufferSize;
      incompleteMessage := [];
    }

    /** prependIncomplete */
    method PrependIncomplete(message: Bytes) returns (all: Bytes)
      requires |incompleteMessage| > 0
      modifies this
      ensures all == old(incompleteMessage) + message && incompleteMessage == []
    {
      all := incompleteMessage + message;
      incompleteMessage := [];
    }

    /** completeChunksUntil */
    method CompleteChunksUntil(message: Bytes) returns (completeUntil: nat, garbageEnd: bool)
      ensures (completeUntil, garbageEnd) == CompleteUntil(message, 0, recvBufferSize)
    {
      completeUntil, garbageEnd := 0, false;
      while |message| - completeUntil >= 8
        invariant completeUntil <= |message|
        invariant CompleteUntil(message, completeUntil, recvBufferSize) == CompleteUntil(message, 0, recvBufferSize)
      {
        if !KnownType(message, completeUntil) {
          garbageEnd := true;
          break;
        }
        var chunkLength := Rd32(message, completeUntil + 4);
        if chunkLength < 16 || chunkLength > recvBufferSize {
          garbageEnd := true;
          break;
        }
        if chunkLength + completeUntil > |message| { break; }
        completeUntil := completeUntil + chunkLength;
      }
    }

    /** separateIncompleteChunk: rest is the message it leaves. */
    method SeparateIncompleteChunk(message: Bytes, completeUntil: nat, garbageEnd: bool) returns (status: Status, rest: Bytes)
      requires completeUntil < |message| && incompleteMessage == []
      modifies this
      ensures garbageEnd && completeUntil == 0 ==> status == BadDecodingError
      ensures !(garbageEnd && completeUntil == 0) ==> status == Good && rest == message[..completeUntil]
      ensures incompleteMessage == if garbageEnd then [] else message[completeUntil..]
    {
      status, rest := Good, message;
      if garbageEnd {
        if completeUntil == 0 { status := BadDecodingError; return; }
        rest := message[..completeUntil];
        return;
      }
      if completeUntil == 0 {
        incompleteMessage := message;
        rest := [];
        return;
      }
      incompleteMessage := message[completeUntil..];
      rest := message[..completeUntil];
    }

    /** UA_Connection_completeMessages */
    method CompleteMessages(received: Bytes) returns (status: Status, message: Bytes)
      modifies this
      ensures Completed(status, message, incompleteMessage) == Complete(old(incompleteMessage), received, recvBufferSize)
    {
      message := received;
      if |incompleteMessage| > 0 {
        message := PrependIncomplete(message);
      }
      assert message == old(incompleteMessage) + received;
      var completeUntil, garbageEnd := CompleteChunksUntil(message);
      status := Good;
      if completeUntil < |message| {
        status, message := SeparateIncompleteChunk(message, completeUntil, garbageEnd);
        if status != Good { message := []; }
      }
    }
  }

  // ------------------------------------------------------------ one chunk

  function Ascii(s: string): Bytes
    requires forall i | 0 <= i < |s| :: s[i] < 128 as char
  {
    seq(|s|, i requires 0 <= i < |s| => s[i] as int)
  }

  /** A buffer that says how long it is goes to the caller whole, or is refused as garbage: by
      its length, and by the message type in its first three bytes. */
  lemma OneChunk(c: Bytes, recvBufferSize: nat)
    requires |c| >= 8 && Rd32(c, 4) == |c|
    ensures var t := c[..3];
            Complete([], c, recvBufferSize) ==
            if 16 <= |c| <= recvBufferSize
               && (t == Ascii("MSG") || t == Ascii("OPN") || t == Ascii("CLO") || t == Ascii("HEL") || t == Ascii("ACK") || t == Ascii("ERR"))
            then Completed(Good, c, []) else Completed(BadDecodingError, [], [])
  {
    hide Rd32;
    assert [] + c == c && c[0..3] == c[..3] && c[..0] == [];
    assert Ascii("MSG") == [0x4D, 0x53, 0x47] && Ascii("OPN") == [0x4F, 0x50, 0x4E] && Ascii("CLO") == [0x43, 0x4C, 0x4F];
    assert Ascii("HEL") == [0x48, 0x45, 0x4C] && Ascii("ACK") == [0x41, 0x43, 0x4B] && Ascii("ERR") == [0x45, 0x52, 0x52];
    if GoodHeader(c, 0, recvBufferSize) { assert CompleteUntil(c, |c|, recvBufferSize) == (|c|, false); }
  }

  // ------------------------------------------------------------ streams of chunks

  /** A chunk that this connection accepts. */
  predicate IsChunk(c: Bytes, recvBufferSize: nat) {
    |c| >= 8 && GoodHeader(c, 0, recvBufferSize) && Rd32(c, 4) == |c|
  }

  predicate AllChunks(cs: seq<Bytes>, recvBufferSize: nat) {
    forall i | 0 <= i < |cs| :: IsChunk(cs[i], recvBufferSize)
  }

  /** How many chunks are whole within the first n bytes of the stream. */
  function WholeCount(cs: seq<Bytes>, n: nat): (k: nat)
    ensures k <= |cs|
  {
    if cs == [] || |cs[0]| > n then 0 else 1 + WholeCount(cs[1..], n - |cs[0]|)
  }

  /** The first WholeCount chunks fit, and one more does not: it is the longest prefix. */
  lemma {:induction false} WholeCountIsLongest(cs: seq<Bytes>, n: nat)
    ensures |Concat(cs[..WholeCount(cs, n)])| <= n
    ensures WholeCount(cs, n) < |cs| ==> |Concat(cs[..WholeCount(cs, n) + 1])| > n
    decreases |cs|
  {
    if cs != [] && |cs[0]| <= n {
      var k := WholeCount(cs[1..], n - |cs[0]|);
      WholeCountIsLongest(cs[1..], n - |cs[0]|);
      assert cs[..k + 1][1..] == cs[1..][..k];
      if k < |cs| - 1 { assert cs[..k + 2][1..] == cs[1..][..k + 1]; }
    } else if cs != [] {
      assert cs[..1] == [cs[0]];
      assert Concat([cs[0]]) == cs[0] + Concat([cs[0]][1..]);
    }
  }

  lemma {:induction false} ConcatPrefix(cs: seq<Bytes>, k: nat)
    requires k <= |cs|
    ensures Concat(cs) == Concat(cs[..k]) + Concat(cs[k..])
  {
    ConcatAppend(cs[..k], cs[k..]);
    assert cs[..k] + cs[k..] == cs;
  }

  /** b from position i on is the beginning of s. */
  predicate Begins(b: Bytes, i: nat, s: Bytes) {
    i <= |b| && |b| - i <= |s| && forall j | i <= j < |b| :: b[j] == s[j - i]
  }

  lemma HeadOfChunk(b: Bytes, i: nat, c: Bytes, rest: Bytes, recvBufferSize: nat)
    requires IsChunk(c, recvBufferSize) && Begins(b, i, c + rest) && i + 8 <= |b|
    ensures GoodHeader(b, i, recvBufferSize) && Rd32(b, i + 4) == |c|
  {
    forall k | 0 <= k < 8 ensures b[i + k] == c[k] {
      assert b[i + k] == (c + rest)[i + k - i];
    }
    assert b[i..i + 3] == c[0..3];
  }

  lemma BeginsAfter(b: Bytes, i: nat, c: Bytes, rest: Bytes)
    requires Begins(b, i, c + rest) && i + |c| <= |b|
    ensures Begins(b, i + |c|, rest)
  {
    forall j | i + |c| <= j < |b| ensures b[j] == rest[j - (i + |c|)] {
      assert b[j] == (c + rest)[j - i];
    }
  }

  /** On the beginning of a stream of chunks the loop stops after the last whole one, and
      finds no garbage, wherever the beginning ends. */
  lemma {:induction false} CutsWhole(b: Bytes, i: nat, cs: seq<Bytes>, recvBufferSize: nat)
    requires AllChunks(cs, recvBufferSize) && i <= |b| && Begins(b, i, Concat(cs))
    ensures CompleteUntil(b, i, recvBufferSize) == (i + |Concat(cs[..WholeCount(cs, |b| - i)])|, false)
    decreases |cs|
  {
    hide GoodHeader, Begins, Rd32;
    var n := |b| - i;
    var k := WholeCount(cs, n);
    assert cs[..0] == [];
    if n >= 8 {
      StreamNotEmpty(b, i, cs);
      var c, rest := cs[0], Concat(cs[1..]);
      HeadOfChunk(b, i, c, rest, recvBufferSize);
      if i + |c| <= |b| {
        BeginsAfter(b, i, c, rest);
        CutsWhole(b, i + |c|, cs[1..], recvBufferSize);
        assert cs[..k][1..] == cs[1..][..k - 1] && cs[..k][0] == c;
      }
    } else if cs != [] {
      ChunkSize(cs[0], recvBufferSize);
    }
  }

  lemma StreamNotEmpty(b: Bytes, i: nat, cs: seq<Bytes>)
    requires Begins(b, i, Concat(cs)) && i < |b|
    ensures cs != []
  {
  }

  lemma ChunkSize(c: Bytes, recvBufferSize: nat)
    requires IsChunk(c, recvBufferSize)
    ensures 16 <= |c| <= recvBufferSize
  {
  }

  // ------------------------------------------------------------ a stream in segments

  /** What the connection hands on and keeps after receiving the segments one by one;
      ok says whether every call returned GOOD. */
  datatype Framed = Framed(ok: bool, delivered: seq<Bytes>, incomplete: Bytes)

  function Receive(incomplete: Bytes, segs: seq<Bytes>, recvBufferSize: nat): Framed
    decreases |segs|
  {
    if segs == [] then Framed(true, [], incomplete)
    else
      var f := Receive(incomplete, segs[..|segs| - 1], recvBufferSize);
      var c := Complete(f.incomplete, segs[|segs| - 1], recvBufferSize);
      Framed(f.ok && c.status == Good, f.delivered + [c.message], c.incomplete)
  }

  /** Of the first total bytes of the stream the whole chunks have been handed on, and the
      rest is kept. */
  ghost predicate HandsOn(f: Framed, cs: seq<Bytes>, total: nat) {
    var done := Done(cs, total);
    && f.ok && done <= total <= |Concat(cs)|
    && Concat(f.delivered) == Concat(cs)[..done]
    && f.incomplete == Concat(cs)[done..total]
  }

  /** The size of the whole chunks among the first n bytes. */
  function Done(cs: seq<Bytes>, n: nat): nat { |Concat(cs[..WholeCount(cs, n)])| }

  lemma {:induction false} WholeCountMore(cs: seq<Bytes>, n: nat, m: nat)
    requires n <= m
    ensures var k := WholeCount(cs, n);
            |Concat(cs[..k])| <= n && WholeCount(cs, m) == k + WholeCount(cs[k..], m - |Concat(cs[..k])|)
    decreases |cs|
  {
    WholeCountIsLongest(cs, n);
    if cs != [] && |cs[0]| <= n {
      var k := WholeCount(cs[1..], n - |cs[0]|);
      WholeCountMore(cs[1..], n - |cs[0]|, m - |cs[0]|);
      assert cs[..k + 1][1..] == cs[1..][..k] && cs[k + 1..] == cs[1..][k..];
    } else {
      assert cs[..0] == [] && cs[0..] == cs;
    }
  }

  lemma ConcatSlice(cs: seq<Bytes>, k: nat, k': nat)
    requires k <= k' <= |cs|
    ensures |Concat(cs[..k])| <= |Concat(cs[..k'])| <= |Concat(cs)|
    ensures Concat(cs[k..k']) == Concat(cs)[|Concat(cs[..k])|..|Concat(cs[..k'])|]
    ensures Concat(cs[..k]) == Concat(cs)[..|Concat(cs[..k])|]
    ensures Concat(cs[k..]) == Concat(cs)[|Concat(cs[..k])|..]
  {
    ConcatPrefix(cs, k);
    ConcatPrefix(cs, k');
    ConcatAppend(cs[..k], cs[k..k']);
    assert cs[..k] + cs[k..k'] == cs[..k'];
  }

  lemma DoneGrows(cs: seq<Bytes>, n: nat, m: nat)
    requires n <= m <= |Concat(cs)|
    ensures WholeCount(cs, n) <= WholeCount(cs, m)
    ensures Done(cs, n) <= n && Done(cs, n) <= Done(cs, m) <= m
    ensures Concat(cs)[Done(cs, n)..] == Concat(cs[WholeCount(cs, n)..])
    ensures Concat(cs)[Done(cs, n)..Done(cs, m)] == Concat(cs[WholeCount(cs, n)..WholeCount(cs, m)])
    ensures WholeCount(cs[WholeCount(cs, n)..], m - Done(cs, n)) == WholeCount(cs, m) - WholeCount(cs, n)
  {
    hide WholeCount, Concat;
    WholeCountMore(cs, n, m);
    WholeCountIsLongest(cs, m);
    ConcatSlice(cs, WholeCount(cs, n), WholeCount(cs, m));
  }

  /** The loop on what was kept and the next segment. */
  lemma NextCut(cs: seq<Bytes>, n: nat, m: nat, recvBufferSize: nat)
    requires AllChunks(cs, recvBufferSize) && n <= m <= |Concat(cs)|
    ensures Done(cs, n) <= Done(cs, m) <= m
    ensures CompleteUntil(Concat(cs)[Done(cs, n)..m], 0, recvBufferSize) == (Done(cs, m) - Done(cs, n), false)
  {
    hide CompleteUntil, AllChunks, Begins, WholeCount, Concat;
    DoneGrows(cs, n, m);
    var k, k' := WholeCount(cs, n), WholeCount(cs, m);
    ChunksFrom(cs, k, recvBufferSize);
    SliceBegins(Concat(cs), Done(cs, n), m);
    CutsWhole(Concat(cs)[Done(cs, n)..m], 0, cs[k..], recvBufferSize);
    assert cs[k..][..k' - k] == cs[k..k'];
  }

  /** One call on the next segment of the stream. */
  lemma NextSegment(cs: seq<Bytes>, n: nat, seg: Bytes, recvBufferSize: nat)
    requires AllChunks(cs, recvBufferSize) && n + |seg| <= |Concat(cs)|
    requires seg == Concat(cs)[n..n + |seg|]
    ensures Done(cs, n) <= n && Done(cs, n) <= Done(cs, n + |seg|) <= n + |seg|
    ensures Complete(Concat(cs)[Done(cs, n)..n], seg, recvBufferSize)
            == Completed(Good, Concat(cs)[Done(cs, n)..Done(cs, n + |seg|)], Concat(cs)[Done(cs, n + |seg|)..n + |seg|])
  {
    hide CompleteUntil, AllChunks, Complete, WholeCount, Concat;
    var m, stream := n + |seg|, Concat(cs);
    DoneGrows(cs, n, m);
    NextCut(cs, n, m, recvBufferSize);
    var done, done' := Done(cs, n), Done(cs, m);
    assert stream[done..n] + seg == stream[done..m];
    CompleteIs(stream[done..n], seg, recvBufferSize, done' - done);
    assert stream[done..m][..done' - done] == stream[done..done'];
    assert stream[done..m][done' - done..] == stream[done'..m];
  }

  lemma SliceBegins(stream: Bytes, lo: nat, hi: nat)
    requires lo <= hi <= |stream|
    ensures Begins(stream[lo..hi], 0, stream[lo..])
  {
  }

  lemma CompleteIs(incomplete: Bytes, message: Bytes, recvBufferSize: nat, until: nat)
    requires CompleteUntil(incomplete + message, 0, recvBufferSize) == (until, false)
    ensures Complete(incomplete, message, recvBufferSize)
            == Completed(Good, (incomplete + message)[..until], (incomplete + message)[until..])
  {
    var all := incomplete + message;
    if until == |all| { assert all[until..] == [] && all[..until] == all; }
  }

  lemma ChunksFrom(cs: seq<Bytes>, k: nat, recvBufferSize: nat)
    requires k <= |cs| && AllChunks(cs, recvBufferSize)
    ensures AllChunks(cs[k..], recvBufferSize)
  {
  }

  /** Stream framing: whatever the segments, every call succeeds, what has been handed on is
      the longest run of whole chunks received so far, and the rest is kept. */
  lemma {:induction false} StreamFraming(cs: seq<Bytes>, segs: seq<Bytes>, recvBufferSize: nat)
    requires AllChunks(cs, recvBufferSize)
    requires |Concat(segs)| <= |Concat(cs)| && Concat(segs) == Concat(cs)[..|Concat(segs)|]
    ensures HandsOn(Receive([], segs, recvBufferSize), cs, |Concat(segs)|)
    decreases |segs|
  {
    hide Complete, AllChunks;
    var stream, m := Concat(cs), |Concat(segs)|;
    if segs == [] {
      WholeCountIsLongest(cs, 0);
    } else {
      var init, seg := segs[..|segs| - 1], segs[|segs| - 1];
      assert segs == init + [seg];
      ConcatAppend(init, [seg]);
      ConcatOne(seg);
      var n := |Concat(init)|;
      assert Concat(init) == Concat(segs)[..n] == stream[..n];
      assert seg == Concat(segs)[n..] == stream[n..m];
      StreamFraming(cs, init, recvBufferSize);
      NextSegment(cs, n, seg, recvBufferSize);
      var f := Receive([], init, recvBufferSize);
      var c := Complete(f.incomplete, seg, recvBufferSize);
      ConcatAppend(f.delivered, [c.message]);
      ConcatOne(c.message);
      assert Concat(f.delivered) + c.message == stream[..Done(cs, m)];
    }
  }

  /** What is kept is less than a header or less than a chunk of the largest size. */
  lemma {:induction false} KeptIsShort(b: Bytes, i: nat, recvBufferSize: nat)
    requires i <= |b|
    ensures var (until, garbage) := CompleteUntil(b, i, recvBufferSize);
            !garbage ==> |b| - until < 8 || |b| - until < recvBufferSize
    decreases |b| - i
  {
    if |b| - i >= 8 && GoodHeader(b, i, recvBufferSize) && i + Rd32(b, i + 4) <= |b| {
      KeptIsShort(b, i + Rd32(b, i + 4), recvBufferSize);
    }
  }

  /** The same for every call, whatever it receives. */
  lemma KeepsLittle(incomplete: Bytes, message: Bytes, recvBufferSize: nat)
    ensures var kept := |Complete(incomplete, message, recvBufferSize).incomplete|;
            kept < 8 || kept < recvBufferSize
  {
    KeptIsShort(incomplete + message, 0, recvBufferSize);
  }

  /** Without garbage no byte is lost, whatever is received. */
  lemma NothingLost(incomplete: Bytes, message: Bytes, recvBufferSize: nat)
    ensures var c := Complete(incomplete, message, recvBufferSize);
            c.message + c.incomplete == incomplete + message <==>
            (!CompleteUntil(incomplete + message, 0, recvBufferSize).1)
  {
    GarbageIsNotEnd(incomplete + message, 0, recvBufferSize);
  }

  lemma {:induction false} GarbageIsNotEnd(b: Bytes, i: nat, recvBufferSize: nat)
    requires i <= |b|
    ensures CompleteUntil(b, i, recvBufferSize).1 ==> CompleteUntil(b, i, recvBufferSize).0 < |b|
    decreases |b| - i
  {
    if |b| - i >= 8 && GoodHeader(b, i, recvBufferSize) && i + Rd32(b, i + 4) <= |b| {
      GarbageIsNotEnd(b, i + Rd32(b, i + 4), recvBufferSize);
    }
  }
}
