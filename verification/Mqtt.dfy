/** MQTTPacket.c: the remaining length, integers and strings of MQTT packets, and PUBLISH
    packets from the sender's structure to the receiver's. */
module Mqtt {
  import opened Sequences

  type Byte = x: int | 0 <= x < 256
  type Bytes = seq<Byte>
  type MsgId = x: int | 0 <= x < 65536

  const PUBLISH := 3
  const MAX_NO_OF_REMAINING_LENGTH_BYTES := 4
  const MAX_LENGTH := 268435455

  // ------------------------------------------------------------ remaining length

  /** Section 2.2.3 of MQTT 3.1.1: base 128, lowest digit first, the top bit for more. */
  function Digits(n: nat): (r: Bytes)
    ensures |r| > 0
  {
    if n / 128 > 0 then [n % 128 + 128] + Digits(n / 128) else [n % 128]
  }

  function Pow128(k: nat): nat { if k == 0 then 1 else 128 * Pow128(k - 1) }

  /** MQTTPacket_decode ends with a length and the position behind it, or the fifth byte is
      asked for, or no byte comes. */
  datatype Decoded = Length(value: nat, end: nat) | TooLong | NoByte

  function Decode(input: Bytes, i: nat, value: nat, multiplier: nat, len: nat): Decoded
    requires len <= 4
    decreases 4 - len
  {
    if len + 1 > MAX_NO_OF_REMAINING_LENGTH_BYTES then TooLong
    else if i >= |input| then NoByte
    else
      var v := value + input[i] % 128 * multiplier;
      if input[i] >= 128 then Decode(input, i + 1, v, multiplier * 128, len + 1) else Length(v, i + 1)
  }

  lemma {:induction false} DecodeDigits(input: Bytes, i: nat, n: nat, value: nat, multiplier: nat, len: nat)
    requires len <= 4 && At(input, i, Digits(n))
    ensures Decode(input, i, value, multiplier, len)
            == if n < Pow128(4 - len) && len < 4 then Length(value + n * multiplier, i + |Digits(n)|) else TooLong
    decreases 4 - len
  {
    hide Decode, Digits, Pow128, At;
    if len == 4 {
      FifthByte(input, i, value, multiplier);
    } else {
      Positive(4 - len);
      if n / 128 > 0 {
        MoreDigits(input, i, n, value, multiplier, len);
        DecodeDigits(input, i + 1, n / 128, value + n % 128 * multiplier, multiplier * 128, len + 1);
        Regroup(n, multiplier);
        OneMore(n, 4 - len);
      } else {
        LastDigit(input, i, n, value, multiplier, len);
      }
    }
  }

  lemma FifthByte(input: Bytes, i: nat, value: nat, multiplier: nat)
    ensures Decode(input, i, value, multiplier, 4) == TooLong
  {
  }

  lemma LastDigit(input: Bytes, i: nat, n: nat, value: nat, multiplier: nat, len: nat)
    requires len < 4 && n / 128 == 0 && At(input, i, Digits(n))
    ensures Decode(input, i, value, multiplier, len) == Length(value + n * multiplier, i + |Digits(n)|)
  {
    assert input[i] == input[i..i + 1][0] == n;
  }

  lemma MoreDigits(input: Bytes, i: nat, n: nat, value: nat, multiplier: nat, len: nat)
    requires len < 4 && n / 128 > 0 && At(input, i, Digits(n))
    ensures At(input, i + 1, Digits(n / 128)) && |Digits(n)| == 1 + |Digits(n / 128)|
    ensures Decode(input, i, value, multiplier, len)
            == Decode(input, i + 1, value + n % 128 * multiplier, multiplier * 128, len + 1)
  {
    AtSplit(input, i, [n % 128 + 128], Digits(n / 128));
    assert input[i] == input[i..i + 1][0] == n % 128 + 128;
  }

  /** The same limit for n and for what is left of it. */
  lemma OneMore(n: nat, k: nat)
    requires k > 0 && n / 128 > 0
    ensures n / 128 < Pow128(k - 1) && k > 1 <==> n < Pow128(k)
  {
    Below(n, Pow128(k - 1));
  }

  lemma {:induction false} Positive(k: nat)
    requires k > 0
    ensures Pow128(k) >= 128
  {
    if k > 1 { Positive(k - 1); }
  }

  lemma Regroup(n: nat, m: nat)
    ensures n % 128 * m + n / 128 * (m * 128) == n * m
  {
    var q, r := n / 128, n % 128;
    assert n == q * 128 + r;
    assert (q * 128 + r) * m == q * (m * 128) + r * m;
  }

  lemma Below(n: nat, p: nat)
    ensures n / 128 < p <==> n < 128 * p
  {
  }

  /** Decoding gives back what was encoded and consumes exactly its bytes, for all lengths up
      to 268435455 and no others. */
  lemma LengthRoundTrip(n: nat, rest: Bytes)
    ensures Decode(Digits(n) + rest, 0, 0, 1, 0) == if n <= MAX_LENGTH then Length(n, |Digits(n)|) else TooLong
    ensures n <= MAX_LENGTH <==> |Digits(n)| <= 4
  {
    assert At(Digits(n) + rest, 0, Digits(n));
    DecodeDigits(Digits(n) + rest, 0, n, 0, 1, 0);
    assert Pow128(2) == 16384 && Pow128(3) == 2097152 && Pow128(4) == 268435456;
    DigitCount(n, 4);
  }

  lemma {:induction false} DigitCount(n: nat, k: nat)
    requires k > 0
    ensures |Digits(n)| <= k <==> n < Pow128(k)
    decreases k
  {
    Positive(k);
    if n / 128 > 0 {
      if k > 1 {
        DigitCount(n / 128, k - 1);
        Below(n, Pow128(k - 1));
      } else {
        assert Pow128(1) == 128 * Pow128(0);
      }
    }
  }

  // ------------------------------------------------------------ integers and strings

  /** The two bytes of writeInt, which casts both to char. */
  function IntBytes(n: nat): (r: Bytes)
    ensures |r| == 2
  {
    [n / 256 % 256, n % 256]
  }

  function IntAt(b: Bytes, i: nat): MsgId
    requires i + 2 <= |b|
  {
    256 * (b[i] as int) + (b[i + 1] as int)
  }

  /** readInt undoes writeInt up to 65535. */
  lemma IntRoundTrip(b: Bytes, i: nat, n: nat)
    requires At(b, i, IntBytes(n))
    ensures IntAt(b, i) == n % 65536
  {
    var s := b[i..i + 2];
    assert s[0] == b[i] && s[1] == b[i + 1];
    assert n % 65536 == n / 256 % 256 * 256 + n % 256;
  }

  /** What strlen sees of memory that holds s and a terminating NUL. */
  function CString(s: Bytes): (r: Bytes)
    ensures r <= s && 0 !in r
  {
    if s == [] || s[0] == 0 then [] else [s[0]] + CString(s[1..])
  }

  lemma {:induction false} CStringAll(s: Bytes)
    ensures CString(s) == s <==> 0 !in s
  {
    if s != [] && s[0] != 0 { CStringAll(s[1..]); }
  }

  // ------------------------------------------------------------ PUBLISH

  /** Publish; the topic is what the pointer points to, up to a terminating NUL. */
  datatype Publish = Publish(dup: bool, qos: nat, retain: bool, topic: Bytes, msgId: MsgId, payload: Bytes)

  function Bit(b: bool): nat { if b then 1 else 0 }

  /** The header byte: type, DUP, QoS, RETAIN. */
  function HeaderByte(typ: nat, p: Publish): Byte
    requires typ < 16 && p.qos < 4
  {
    typ * 16 + Bit(p.dup) * 8 + p.qos * 2 + Bit(p.retain)
  }

  /** The buffers of MQTTPacket_send_publish. */
  function Buffers(p: Publish): seq<Bytes> {
    var topic := CString(p.topic);
    if p.qos > 0 then [IntBytes(|topic|), topic, IntBytes(p.msgId), p.payload] else [IntBytes(|topic|), topic, p.payload]
  }

  function Body(p: Publish): Bytes { Concat(Buffers(p)) }

  function Packet(p: Publish): Bytes
    requires p.qos < 4
  {
    [HeaderByte(PUBLISH, p)] + Digits(|Body(p)|) + Body(p)
  }

  /** What MQTTPacket_publish makes of data: payloadAt is where the payload starts, and its
      length may be negative. */
  datatype Parsed = Null | Parsed(topic: Bytes, msgId: MsgId, payloadAt: nat, payloadlen: int)

  /** mem is memory that starts with datalen bytes of data.  The message id is read without
      looking at datalen. */
  function Parse(qos: nat, mem: Bytes, datalen: nat): Parsed
    requires datalen + 2 <= |mem|
  {
    if datalen < 2 then Null
    else
      var n := IntAt(mem, 0);
      if 2 + n > datalen then Null
      else if qos > 0 then Parsed(mem[2..2 + n], IntAt(mem, 2 + n), 4 + n, datalen - (4 + n))
      else Parsed(mem[2..2 + n], 0, 2 + n, datalen - (2 + n))
  }

  /** The structure is filled from the packet alone exactly if there is room for the id. */
  lemma ParsedInside(qos: nat, mem: Bytes, datalen: nat)
    requires datalen + 2 <= |mem| && Parse(qos, mem, datalen).Parsed?
    ensures var n := |Parse(qos, mem, datalen).topic|;
            Parse(qos, mem, datalen).payloadlen >= 0 <==> (qos == 0 || datalen >= 4 + n)
  {
  }

  /** The structures that a receiver gets.  NoPack is for packets that nothing reads, Other
      for those that another file reads. */
  datatype Pack =
    | PublishPack(header: Byte, topic: Bytes, msgId: MsgId, payloadlen: int, payload: Bytes)
    | AckPack(header: Byte, msgId: MsgId)
    | HeaderPack(header: Byte)
    | Other(header: Byte, data: Bytes)
    | NoPack(header: Byte)

  function Filled(header: Byte, mem: Bytes, datalen: nat, r: Parsed): Pack
    requires r.Parsed? && datalen <= |mem| && r.payloadAt + r.payloadlen == datalen
  {
    PublishPack(header, r.topic, r.msgId, r.payloadlen, if r.payloadlen >= 0 then mem[r.payloadAt..datalen] else [])
  }

  /** The structure for what was sent.  The id exists only for QoS 1 and 2. */
  function PackOf(p: Publish): Pack
    requires p.qos < 4
  {
    PublishPack(HeaderByte(PUBLISH, p), p.topic, if p.qos > 0 then p.msgId else 0, |p.payload|, p.payload)
  }

  lemma BodyIs(p: Publish)
    ensures Body(p) == IntBytes(|CString(p.topic)|) + CString(p.topic) + (if p.qos > 0 then IntBytes(p.msgId) else []) + p.payload
  {
    var topic := CString(p.topic);
    var a := IntBytes(|topic|);
    var bufs := Buffers(p);
    ConcatTwo(a, topic);
    var first: seq<Bytes> := [a, topic];
    if p.qos > 0 {
      ConcatTwo(IntBytes(p.msgId), p.payload);
      ConcatAppend(first, [IntBytes(p.msgId), p.payload]);
      assert bufs == first + [IntBytes(p.msgId), p.payload];
    } else {
      ConcatOne(p.payload);
      ConcatAppend(first, [p.payload]);
      assert bufs == first + [p.payload];
    }
  }

  lemma ConcatTwo(a: Bytes, b: Bytes)
    ensures Concat([a, b]) == a + b
  {
    ConcatOne(a);
    ConcatOne(b);
    ConcatAppend([a], [b]);
    assert [a, b] == [a] + [b];
  }

  predicate GoodTopic(topic: Bytes) { 0 !in topic && |topic| <= 65535 }

  /** Parsing the body that was sent gives the structure back exactly if the topic is a
      string without NULs of at most 65535 bytes. */
  lemma BodyRoundTrip(p: Publish, behind: Bytes)
    requires |behind| >= 2 && p.qos < 4
    ensures var mem := Body(p) + behind;
            var r := Parse(p.qos, mem, |Body(p)|);
            (r.Parsed? && Filled(HeaderByte(PUBLISH, p), mem, |Body(p)|, r) == PackOf(p)) <==> GoodTopic(p.topic)
  {
    hide Body, Buffers, IntBytes, IntAt, CString, At, HeaderByte;
    var topic := CString(p.topic);
    var mem := Body(p) + behind;
    BodyIs(p);
    CStringAll(p.topic);
    BodyAt(p, behind);
    IntRoundTrip(mem, 0, |topic|);
    var n := |topic| % 65536;
    assert n <= |topic|;
    if |topic| <= 65535 {
      assert n == |topic|;
      TextAt(mem, 2, topic);
      if p.qos > 0 { IntRoundTrip(mem, 2 + n, p.msgId); }
      var at := 2 + n + (if p.qos > 0 then 2 else 0);
      assert |Body(p)| == at + |p.payload|;
      TextAt(mem, at, p.payload);
    }
  }

  lemma TextAt(b: Bytes, i: nat, s: Bytes)
    requires At(b, i, s)
    ensures i + |s| <= |b| && b[i..i + |s|] == s
  {
  }

  lemma HeaderBits(p: Publish)
    requires p.qos < 4
    ensures var h := HeaderByte(PUBLISH, p);
            && h / 16 == PUBLISH && (h / 8 % 2 == 1 <==> p.dup) && h / 2 % 4 == p.qos && (h % 2 == 1 <==> p.retain)
  {
  }

  /** Where the parts of the body stand. */
  lemma BodyAt(p: Publish, behind: Bytes)
    ensures var (mem, n) := (Body(p) + behind, |CString(p.topic)|);
            && At(mem, 0, IntBytes(n)) && At(mem, 2, CString(p.topic))
            && (p.qos > 0 ==> At(mem, 2 + n, IntBytes(p.msgId)))
            && At(mem, 2 + n + (if p.qos > 0 then 2 else 0), p.payload)
  {
    hide Body, CString, IntBytes, At;
    BodyIs(p);
    var (mem, topic) := (Body(p) + behind, CString(p.topic));
    var id: Bytes := if p.qos > 0 then IntBytes(p.msgId) else [];
    StartsAt(mem, Body(p));
    AtSplit(mem, 0, IntBytes(|topic|) + topic + id, p.payload);
    AtSplit(mem, 0, IntBytes(|topic|) + topic, id);
    AtSplit(mem, 0, IntBytes(|topic|), topic);
  }

  lemma StartsAt(mem: Bytes, s: Bytes)
    requires s <= mem
    ensures At(mem, 0, s)
  {
  }

  // ------------------------------------------------------------ a stream of packets

  datatype Read = Got(pack: Pack, rest: Bytes) | Failed

  predicate IsAck(typ: nat) { 4 <= typ <= 7 || typ == 11 }

  predicate IsHeaderOnly(typ: nat) { 12 <= typ <= 14 }

  /** new_packets, for a whole packet. */
  function ReadData(header: Byte, data: Bytes, behind: Bytes, rest: Bytes): Read
    requires |behind| >= 2
  {
    var typ := header / 16;
    var mem := data + behind;
    if typ == PUBLISH then
      var r := Parse(header / 2 % 4, mem, |data|);
      if r.Null? then Failed else Got(Filled(header, mem, |data|, r), rest)
    else if IsAck(typ) then Got(AckPack(header, IntAt(mem, 0)), rest)
    else if IsHeaderOnly(typ) then Got(HeaderPack(header), rest)
    else if typ == 2 || typ == 9 then Got(Other(header, data), rest)
    else Got(NoPack(header), rest)
  }

  /** MQTTPacket_Factory on the bytes that have come; behind is memory after the data. */
  function ReadPacket(input: Bytes, behind: Bytes): Read
    requires |behind| >= 2
  {
    if input == [] then Failed
    else
      match Decode(input, 1, 0, 1, 0)
      case Length(n, end) =>
        if end + n > |input| then Failed
        else ReadData(input[0], input[end..end + n], behind, input[end + n..])
      case TooLong => Failed
      case NoByte => Failed
  }

  /** Where the parts of any packet stand in the stream. */
  lemma PartsAt(header: Byte, d: Bytes, data: Bytes, rest: Bytes)
    ensures var input := [header] + d + data + rest;
            && input != [] && input[0] == header && At(input, 1, d) && 1 + |d| + |data| <= |input|
            && input[1 + |d|..1 + |d| + |data|] == data && input[1 + |d| + |data|..] == rest
  {
    hide At;
    var input := [header] + d + data + rest;
    StartsAt(input, [header] + d + data);
    AtSplit(input, 0, [header] + d, data);
    AtSplit(input, 0, [header], d);
    TextAt(input, 1 + |d|, data);
  }

  lemma DecodeWhole(input: Bytes, i: nat, n: nat)
    requires At(input, i, Digits(n)) && n <= MAX_LENGTH
    ensures Decode(input, i, 0, 1, 0) == Length(n, i + |Digits(n)|)
  {
    hide Decode, Digits, Pow128, At;
    HighestLength();
    DecodeDigits(input, i, n, 0, 1, 0);
  }

  /** A packet whose length is encoded is cut off the stream. */
  lemma PacketCut(header: Byte, data: Bytes, rest: Bytes, behind: Bytes)
    requires |data| <= MAX_LENGTH && |behind| >= 2
    ensures ReadPacket([header] + Digits(|data|) + data + rest, behind) == ReadData(header, data, behind, rest)
  {
    hide Digits, Decode, ReadData, Pow128, At;
    var (d, input) := (Digits(|data|), [header] + Digits(|data|) + data + rest);
    PartsAt(header, d, data, rest);
    DecodeWhole(input, 1, |data|);
  }

  /** The table of packet types, by their numbers in section 2.2.1 of MQTT 3.1.1: which packet
      is read as what, for all contents and all flags in the low half of the header byte. */
  lemma PacketTable(header: Byte, data: Bytes, rest: Bytes, behind: Bytes)
    requires |data| <= 268435455 && |behind| >= 2
    ensures var (typ, r) := (header / 16, ReadPacket([header] + Digits(|data|) + data + rest, behind));
            var first := (data + behind)[0] as int * 256 + (data + behind)[1] as int;
            && (typ == 3 ==> r.Failed? || (r.pack.PublishPack? && r.pack.header == header && r.rest == rest))
            && (typ == 4 || typ == 5 || typ == 6 || typ == 7 || typ == 11 ==> r == Got(AckPack(header, first), rest))
            && (typ == 12 || typ == 13 || typ == 14 ==> r == Got(HeaderPack(header), rest))
            && (typ == 2 || typ == 9 ==> r == Got(Other(header, data), rest))
            && (typ == 0 || typ == 1 || typ == 8 || typ == 10 || typ == 15 ==> r == Got(NoPack(header), rest))
  {
    hide Digits, ReadPacket, Parse;
    PacketCut(header, data, rest, behind);
  }

  /** PUBACK with the id 10, and the length of 321 bytes that the standard gives as an example. */
  lemma Examples(behind: Bytes)
    requires |behind| >= 2
    ensures ReadPacket([0x40, 0x02, 0x00, 0x0A], behind) == Got(AckPack(0x40, 10), [])
    ensures Digits(321) == [193, 2]
  {
    var data: Bytes := [0x00, 0x0A];
    PacketTable(0x40, data, [], behind);
    assert Digits(2) == [2];
    assert [0x40] + [2] + data + [] == [0x40, 0x02, 0x00, 0x0A];
  }

  /** A packet comes out as it went in, and the stream continues behind it, exactly if the
      topic is good and the length can be encoded. */
  lemma PacketRoundTrip(p: Publish, rest: Bytes, behind: Bytes)
    requires p.qos < 4 && |behind| >= 2
    ensures ReadPacket(Packet(p) + rest, behind) == Got(PackOf(p), rest)
            <==> GoodTopic(p.topic) && |Body(p)| <= MAX_LENGTH
  {
    hide Body, Digits, Decode, Parse, At, HeaderByte, Pow128, GoodTopic, PackOf, Packet, ReadData;
    var (h, d, body) := (HeaderByte(PUBLISH, p), Digits(|Body(p)|), Body(p));
    var input := Packet(p) + rest;
    PacketParts(p, rest);
    DecodeDigits(input, 1, |body|, 0, 1, 0);
    HighestLength();
    WholeBody(p, rest, behind);
  }

  /** Where the parts of a packet stand in the stream. */
  lemma PacketParts(p: Publish, rest: Bytes)
    requires p.qos < 4
    ensures var (input, d) := (Packet(p) + rest, Digits(|Body(p)|));
            && input != [] && input[0] == HeaderByte(PUBLISH, p) && At(input, 1, d)
            && 1 + |d| + |Body(p)| <= |input|
            && input[1 + |d|..1 + |d| + |Body(p)|] == Body(p) && input[1 + |d| + |Body(p)|..] == rest
  {
    hide Body, Digits, At, HeaderByte;
    var (h, d, body) := (HeaderByte(PUBLISH, p), Digits(|Body(p)|), Body(p));
    var input := Packet(p) + rest;
    StartsAt(input, [h] + d + body);
    AtSplit(input, 0, [h] + d, body);
    AtSplit(input, 0, [h], d);
    TextAt(input, 1 + |d|, body);
  }

  lemma WholeBody(p: Publish, rest: Bytes, behind: Bytes)
    requires p.qos < 4 && |behind| >= 2
    ensures ReadData(HeaderByte(PUBLISH, p), Body(p), behind, rest) == Got(PackOf(p), rest) <==> GoodTopic(p.topic)
  {
    hide Body, Parse, HeaderByte, GoodTopic, PackOf;
    HeaderBits(p);
    BodyRoundTrip(p, behind);
  }

  lemma HighestLength()
    ensures Pow128(4) == MAX_LENGTH + 1
  {
    assert Pow128(2) == 16384 && Pow128(3) == 2097152;
  }

  function Wire(ps: seq<Publish>): Bytes
    requires forall p | p in ps :: p.qos < 4
  {
    if ps == [] then [] else Packet(ps[0]) + Wire(ps[1..])
  }

  function ReadPackets(input: Bytes, behind: Bytes, n: nat): (seq<Pack>, bool)
    requires |behind| >= 2
  {
    if n == 0 then ([], true)
    else
      match ReadPacket(input, behind)
      case Got(pack, rest) => var (packs, ok) := ReadPackets(rest, behind, n - 1); ([pack] + packs, ok)
      case Failed => ([], false)
  }

  function Packs(ps: seq<Publish>): (r: seq<Pack>)
    requires forall p | p in ps :: p.qos < 4
    ensures |r| == |ps|
  {
    seq(|ps|, i requires 0 <= i < |ps| => PackOf(ps[i]))
  }

  /** Any number of PUBLISH packets, sent one after the other, are read as they were sent. */
  lemma {:induction false} StreamRoundTrip(ps: seq<Publish>, rest: Bytes, behind: Bytes)
    requires |behind| >= 2
    requires forall p | p in ps :: p.qos < 4 && GoodTopic(p.topic) && |Body(p)| <= MAX_LENGTH
    ensures ReadPackets(Wire(ps) + rest, behind, |ps|)
            == (Packs(ps), true)
    decreases |ps|
  {
    hide ReadPacket, Packet, Body, PackOf;
    if ps != [] {
      var tail := ps[1..];
      assert Wire(ps) + rest == Packet(ps[0]) + (Wire(tail) + rest);
      PacketRoundTrip(ps[0], Wire(tail) + rest, behind);
      StreamRoundTrip(tail, rest, behind);
      assert [PackOf(ps[0])] + Packs(tail) == Packs(ps);
    }
  }

  // ------------------------------------------------------------ the C functions

  /** MQTTPacket_encode: it writes the digits from position at on. */
  method Encode(buf: array<Byte>, at: nat, lengthToEncode: nat) returns (rc: nat)
    requires at + |Digits(lengthToEncode)| <= buf.Length
    modifies buf
    ensures rc == |Digits(lengthToEncode)| && buf[at..at + rc] == Digits(lengthToEncode)
    ensures buf[..at] == old(buf[..at]) && buf[at + rc..] == old(buf[at + rc..])
  {
    rc := 0;
    var length := lengthToEncode;
    var more := true;
    while more
      invariant at + rc <= buf.Length
      invariant more ==> buf[at..at + rc] + Digits(length) == Digits(lengthToEncode)
      invariant !more ==> buf[at..at + rc] == Digits(lengthToEncode)
      invariant (more ==> at + rc + |Digits(length)| == at + |Digits(lengthToEncode)|)
      invariant buf[..at] == old(buf[..at])
      invariant forall i | at + rc <= i < buf.Length :: buf[i] == old(buf[i])
      decreases more, length
    {
      ghost var done, n := buf[at..at + rc], length;
      var d: Byte := length % 128;
      length := length / 128;
      if length > 0 { d := d + 128; }
      buf[at + rc] := d;
      rc := rc + 1;
      more := length > 0;
      assert buf[at..at + rc] == done + [d];
      if more { assert done + ([d] + Digits(length)) == done + [d] + Digits(length); }
    }
  }

  /** writeInt */
  method WriteInt(buf: array<Byte>, at: nat, anInt: nat) returns (next: nat)
    requires at + 2 <= buf.Length
    modifies buf
    ensures next == at + 2 && buf[at..next] == IntBytes(anInt)
    ensures buf[..at] == old(buf[..at]) && buf[next..] == old(buf[next..])
  {
    next := at;
    buf[next] := anInt / 256 % 256;
    next := next + 1;
    buf[next] := anInt % 256;
    next := next + 1;
  }

  /** readInt */
  method ReadInt(mem: Bytes, at: nat) returns (value: MsgId, next: nat)
    requires at + 2 <= |mem|
    ensures value == IntAt(mem, at) && next == at + 2
  {
    value := 256 * (mem[at] as int) + (mem[at + 1] as int);
    next := at + 2;
  }

  /** MQTTPacket_publish */
  method PublishFrom(header: Byte, mem: Bytes, datalen: nat) returns (pack: Parsed)
    requires datalen + 2 <= |mem|
    ensures pack == Parse(header / 2 % 4, mem, datalen)
  {
    var curdata := 0;
    if datalen - curdata <= 1 { return Null; }
    var len, msgId := 0, 0;
    len, curdata := ReadInt(mem, curdata);
    if curdata + len > datalen { return Null; }
    var topic := mem[curdata..curdata + len];
    curdata := curdata + len;
    if header / 2 % 4 > 0 {
      msgId, curdata := ReadInt(mem, curdata);
    }
    pack := Parsed(topic, msgId, curdata, datalen - curdata);
  }

  /** A socket: the bytes that have come and not been read, and the bytes sent. */
  class Network {
    var input: Bytes
    var output: Bytes

    constructor (input: Bytes)
      ensures this.input == input && output == []
    {
      this.input, output := input, [];
    }

    /** Socket_getch; ok is TCPSOCKET_COMPLETE. */
    method Getch() returns (ok: bool, c: Byte)
      modifies this`input
      ensures ok <==> old(input) != []
      ensures ok ==> c == old(input)[0] && input == old(input)[1..]
      ensures !ok ==> input == old(input)
    {
      if input == [] { return false, 0; }
      ok, c := true, input[0];
      input := input[1..];
    }

    /** MQTTPacket_decode */
    method DecodeLength() returns (ok: bool, value: nat)
      modifies this`input
      ensures match Decode(old(input), 0, 0, 1, 0)
              case Length(n, end) => ok && value == n && end <= |old(input)| && input == old(input)[end..]
              case TooLong => !ok
              case NoByte => !ok
    {
      ok, value := false, 0;
      var multiplier: nat, len: nat, c: Byte := 1, 0, 128;
      ghost var all, i: nat := input, 0;
      while c >= 128
        invariant i <= |all| && input == all[i..] && len <= 4
        invariant c >= 128 ==> Decode(all, i, value, multiplier, len) == Decode(all, 0, 0, 1, 0)
        invariant c < 128 ==> Decode(all, 0, 0, 1, 0) == Length(value, i)
        decreases 4 - len
      {
        len := len + 1;
        if len > MAX_NO_OF_REMAINING_LENGTH_BYTES { return; }
        var got;
        got, c := Getch();
        if !got { return; }
        value := value + c % 128 * multiplier;
        multiplier := multiplier * 128;
        i := i + 1;
      }
      ok := true;
    }

    /** MQTTPacket_sends, without persistence. */
    method Sends(header: Byte, buffers: seq<Bytes>)
      modifies this`output
      ensures output == old(output) + [header] + Digits(|Concat(buffers)|) + Concat(buffers)
    {
      var total, i := 0, 0;
      assert buffers[..0] == [];
      while i < |buffers|
        invariant i <= |buffers| && total == |Concat(buffers[..i])| && output == old(output)
      {
        ConcatNext(buffers, i);
        total := total + |buffers[i]|;
        i := i + 1;
      }
      assert buffers[..i] == buffers;
      var buf := new Byte[1 + |Digits(total)|](_ => 0);
      buf[0] := header;
      var n := Encode(buf, 1, total);
      assert buf[..1 + n] == [header] + Digits(total);
      output := output + buf[..1 + n];
      i := 0;
      assert output == old(output) + [header] + Digits(total);
      assert buffers[..0] == [] && output + [] == output;
      while i < |buffers|
        invariant i <= |buffers| && output == old(output) + [header] + Digits(total) + Concat(buffers[..i])
      {
        ConcatNext(buffers, i);
        output := output + buffers[i];
        i := i + 1;
      }
      assert buffers[..i] == buffers;
    }

    /** MQTTPacket_send_publish */
    method SendPublish(p: Publish)
      requires p.qos < 4
      modifies this`output
      ensures output == old(output) + Packet(p)
    {
      var header: Byte := PUBLISH * 16 + Bit(p.dup) * 8 + p.qos * 2 + Bit(p.retain);
      var topic := CString(p.topic);
      var topiclen := new Byte[2];
      var _ := WriteInt(topiclen, 0, |topic|);
      assert topiclen[..] == topiclen[0..2];
      if p.qos > 0 {
        var buf := new Byte[2];
        var _ := WriteInt(buf, 0, p.msgId);
        assert buf[..] == buf[0..2];
        Sends(header, [topiclen[..], topic, buf[..], p.payload]);
      } else {
        Sends(header, [topiclen[..], topic, p.payload]);
      }
    }

    /** MQTTPacket_Factory, without persistence. */
    method Factory(behind: Bytes) returns (r: Read)
      requires |behind| >= 2
      modifies this`input
      ensures r == ReadPacket(old(input), behind) && (r.Got? ==> input == r.rest)
    {
      hide Decode, Parse;
      ghost var all := input;
      var ok, header := Getch();
      if !ok { return Failed; }
      var remainingLength;
      ok, remainingLength := DecodeLength();
      DecodeShift(all);
      if !ok { return Failed; }
      if remainingLength > |input| { return Failed; }
      var data := input[..remainingLength];
      input := input[remainingLength..];
      ghost var end := Decode(all, 1, 0, 1, 0).end;
      assert data == all[end..end + remainingLength] && input == all[end + remainingLength..];
      var typ := header / 16;
      if typ == PUBLISH {
        var pack := PublishFrom(header, data + behind, remainingLength);
        if pack == Null { return Failed; }
        FilledFits(header / 2 % 4, data + behind, remainingLength);
        r := Got(Filled(header, data + behind, remainingLength, pack), input);
      } else if IsAck(typ) {
        var msgId, _ := ReadInt(data + behind, 0);
        r := Got(AckPack(header, msgId), input);
      } else if IsHeaderOnly(typ) {
        r := Got(HeaderPack(header), input);
      } else if typ == 2 || typ == 9 {
        r := Got(Other(header, data), input);
      } else {
        r := Got(NoPack(header), input);
      }
    }
  }

  lemma FilledFits(qos: nat, mem: Bytes, datalen: nat)
    requires datalen + 2 <= |mem| && Parse(qos, mem, datalen).Parsed?
    ensures var r := Parse(qos, mem, datalen); r.payloadAt + r.payloadlen == datalen
  {
  }

  lemma DecodeShift(all: Bytes)
    requires all != []
    ensures var r := Decode(all[1..], 0, 0, 1, 0);
            Decode(all, 1, 0, 1, 0) == if r.Length? then r.(end := r.end + 1) else r
  {
    DecodeShifted(all, 0, 0, 1, 0);
  }

  lemma {:induction false} DecodeShifted(all: Bytes, i: nat, value: nat, multiplier: nat, len: nat)
    requires all != [] && len <= 4
    ensures var r := Decode(all[1..], i, value, multiplier, len);
            Decode(all, i + 1, value, multiplier, len) == if r.Length? then r.(end := r.end + 1) else r
    decreases 4 - len
  {
    if len < 4 && i < |all[1..]| && all[1..][i] >= 128 {
      DecodeShifted(all, i + 1, value + all[1..][i] % 128 * multiplier, multiplier * 128, len + 1);
    }
  }
}
