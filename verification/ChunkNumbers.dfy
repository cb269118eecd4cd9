/** Sequence numbers over whole runs of a receiving channel (section 6.7.2 of OPC UA Part 6). */
module ChunkNumbers {
  import opened UaBytes
  import opened ChunkReceiving

  /** The states of a channel while it processes chunks, whatever they contain. */
  ghost predicate Trace(cs: seq<Channel>) {
    forall i | 0 <= i < |cs| - 1 :: Steps(cs[i], cs[i + 1])
  }

  ghost predicate Steps(c: Channel, d: Channel) {
    exists mem: Bytes, len: nat, offset: nat ::
      offset <= len && len + 2 < |mem| && d == Iterate(c, mem, len, offset).c
  }

  /** The numbers accepted during a trace.  An accepted number always differs from the one
      before, so these are the changes of receiveSequenceNumber. */
  function AcceptedNumbers(cs: seq<Channel>): seq<UInt32>
    decreases |cs|
  {
    if |cs| < 2 then []
    else
      var ns := AcceptedNumbers(cs[..|cs| - 1]);
      var number := cs[|cs| - 1].recvSeq;
      if number == cs[|cs| - 2].recvSeq then ns else ns + [number]
  }

  /** ns can be accepted one after the other, starting after number. */
  ghost predicate AcceptedRun(number: UInt32, ns: seq<UInt32>) {
    forall i {:trigger Before(number, ns, i)} | 0 <= i < |ns| :: SequenceOk(Before(number, ns, i), ns[i])
  }

  function Before(number: UInt32, ns: seq<UInt32>, i: nat): UInt32
    requires i <= |ns|
  {
    if i == 0 then number else ns[i - 1]
  }

  /** An iteration leaves the number alone, or it has accepted the number of the chunk and
      that is what is stored. */
  lemma IterationAccepts(c: Channel, mem: Bytes, len: nat, offset: nat)
    requires offset <= len && len + 2 < |mem|
    ensures var d := Iterate(c, mem, len, offset).c;
            || d.recvSeq == c.recvSeq
            || (offset + 24 <= len && d.recvSeq == Rd32(mem, offset + 16) && SequenceOk(c.recvSeq, d.recvSeq))
  {
    hide Rd32, SequenceOk, AppendChunk, RemoveChunk, Finalized;
  }

  /** What is accepted in any trace is an accepted run, and the channel has the last number. */
  lemma {:induction false} TraceAccepts(cs: seq<Channel>)
    requires cs != [] && Trace(cs)
    ensures var ns := AcceptedNumbers(cs);
            && AcceptedRun(cs[0].recvSeq, ns)
            && cs[|cs| - 1].recvSeq == Before(cs[0].recvSeq, ns, |ns|)
    decreases |cs|
  {
    hide Iterate, SequenceOk;
    if |cs| > 1 {
      var init := cs[..|cs| - 1];
      TraceAccepts(init);
      var c, d := cs[|cs| - 2], cs[|cs| - 1];
      assert Steps(c, d);
      var mem: Bytes, len: nat, offset: nat :|
        offset <= len && len + 2 < |mem| && d == Iterate(c, mem, len, offset).c;
      IterationAccepts(c, mem, len, offset);
      var ns := AcceptedNumbers(init);
      if d.recvSeq != c.recvSeq { RunExtends(cs[0].recvSeq, ns, d.recvSeq); }
    }
  }

  lemma RunExtends(number: UInt32, ns: seq<UInt32>, n: UInt32)
    requires AcceptedRun(number, ns) && SequenceOk(Before(number, ns, |ns|), n)
    ensures AcceptedRun(number, ns + [n])
  {
    hide SequenceOk;
    var all := ns + [n];
    forall i | 0 <= i < |all| ensures SequenceOk(Before(number, all, i), all[i]) {
      if i < |ns| {
        assert SequenceOk(Before(number, ns, i), ns[i]);
        assert Before(number, all, i) == Before(number, ns, i);
      } else {
        assert Before(number, all, i) == Before(number, ns, i);
      }
    }
  }

  /** The steps there are: one more, the wrap-around at 2^32, and from the last 1024 numbers
      (without the very last) to one of the first 1024. */
  predicate RollsOver(number: UInt32, next: UInt32) { number >= 4294966271 && next < 1024 }

  lemma StepsAre(number: UInt32, next: UInt32)
    ensures SequenceOk(number, next) <==>
            (next == number + 1
             || (number == TWO32 - 1 && next == 0)
             || (RollsOver(number, next) && number != TWO32 - 1))
  {
  }

  /** No rollover among the steps into ns[i + 1] .. ns[j]. */
  ghost predicate NoRollover(ns: seq<UInt32>, i: nat, j: nat)
    requires i <= j < |ns|
  {
    forall k {:trigger RollsOver(ns[k], ns[k + 1])} | i <= k < j :: !RollsOver(ns[k], ns[k + 1])
  }

  /** Between two rollovers the numbers go up by one, so none of them repeats. */
  lemma {:induction false} NoRepeats(number: UInt32, ns: seq<UInt32>, i: nat, j: nat)
    requires AcceptedRun(number, ns) && i <= j < |ns| && NoRollover(ns, i, j)
    ensures ns[j] == ns[i] + (j - i)
    decreases j
  {
    hide AcceptedRun, NoRollover;
    if i < j {
      FewerSteps(ns, i, j);
      NoRepeats(number, ns, i, j - 1);
      LastStep(number, ns, i, j);
    }
  }

  lemma FewerSteps(ns: seq<UInt32>, i: nat, j: nat)
    requires i < j < |ns| && NoRollover(ns, i, j)
    ensures NoRollover(ns, i, j - 1)
  {
    hide RollsOver;
  }

  lemma LastStep(number: UInt32, ns: seq<UInt32>, i: nat, j: nat)
    requires AcceptedRun(number, ns) && i < j < |ns| && NoRollover(ns, i, j)
    ensures (ns[j] as int) == (ns[j - 1] as int) + 1
  {
    hide SequenceOk, RollsOver;
    assert SequenceOk(Before(number, ns, j), ns[j]);
    var k := j - 1;
    assert !RollsOver(ns[k], ns[k + 1]);
    PlainStep(ns[j - 1], ns[j]);
  }

  lemma PlainStep(number: UInt32, next: UInt32)
    requires SequenceOk(number, next) && !RollsOver(number, next)
    ensures next == number + 1
  {
    StepsAre(number, next);
  }

  /** From one rollover to the next at least 4294965248 chunks are accepted. */
  lemma RolloversAreFarApart(number: UInt32, ns: seq<UInt32>, i: nat, j: nat)
    requires AcceptedRun(number, ns) && 0 < i < j < |ns|
    requires RollsOver(ns[i - 1], ns[i]) && RollsOver(ns[j - 1], ns[j]) && NoRollover(ns, i, j - 1)
    ensures j - i > 4294965247
  {
    hide AcceptedRun, NoRollover;
    NoRepeats(number, ns, i, j - 1);
  }

  /** A sender that adds one for each chunk, wrapping around at 2^32, is accepted for ever. */
  lemma CountingSender(number: UInt32, ns: seq<UInt32>)
    requires forall i | 0 <= i < |ns| :: ns[i] == (number + i + 1) % TWO32
    ensures AcceptedRun(number, ns)
  {
    forall i | 0 <= i < |ns| ensures SequenceOk(Before(number, ns, i), ns[i]) {
      if i > 0 { assert ns[i - 1] == (number + i) % TWO32; }
    }
  }
}
