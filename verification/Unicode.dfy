/** What the `\uXXXX` escapes of a string turn into (section 7 of RFC 7159), judged by a
    UTF-8 decoder written from section 3 of RFC 3629. */
module Unicode {
  import opened Sequences
  import opened Tokener
  import opened TokenerLoop
  import opened Resume
  import opened TextScan

  // ------------------------------------------------------------ UTF-8

  predicate IsScalar(u: nat) { u < 0x110000 && !(0xD800 <= u < 0xE000) }

  predicate IsTail(c: char) { 0x80 <= c as int < 0xC0 }

  /** One code point at the start of s: its value and how many bytes it takes. */
  function DecodeFirst(s: string): (r: Option<(nat, nat)>)
    ensures r.Some? ==> 1 <= r.value.1 <= 4 && r.value.1 <= |s|
  {
    if s == "" then None
    else
      var b := s[0] as int;
      if b < 0x80 then Some((b, 1))
      else if 0xC2 <= b < 0xE0 && |s| >= 2 && IsTail(s[1]) then
        Some(((b - 0xC0) * 64 + (s[1] as int - 0x80), 2))
      else if 0xE0 <= b < 0xF0 && |s| >= 3 && IsTail(s[1]) && IsTail(s[2]) then
        var u := (b - 0xE0) * 4096 + (s[1] as int - 0x80) * 64 + (s[2] as int - 0x80);
        if u < 0x800 || 0xD800 <= u < 0xE000 then None else Some((u, 3))
      else if 0xF0 <= b < 0xF5 && |s| >= 4 && IsTail(s[1]) && IsTail(s[2]) && IsTail(s[3]) then
        var u := (b - 0xF0) * 262144 + (s[1] as int - 0x80) * 4096 + (s[2] as int - 0x80) * 64 + (s[3] as int - 0x80);
        if u < 0x10000 || u >= 0x110000 then None else Some((u, 4))
      else None
  }

  predicate WellFormed(s: string) {
    s == "" || (var d := DecodeFirst(s); d.Some? && WellFormed(s[d.value.1..]))
  }

  lemma Sextets(u: nat)
    ensures u == u / 64 * 64 + u % 64
    ensures u / 64 == u / 4096 * 64 + u / 64 % 64
    ensures u / 4096 == u / 262144 * 64 + u / 4096 % 64
  {
  }

  lemma Decodes2(u: nat, s: string)
    requires 0x80 <= u < 0x800 && |s| >= 2 && s[..2] == Utf8(u)
    ensures DecodeFirst(s) == Some((u, 2))
  {
    Sextets(u);
    assert s[0] == s[..2][0] && s[1] == s[..2][1];
  }

  lemma Decodes3(u: nat, s: string)
    requires 0x800 <= u < 0x10000 && IsScalar(u) && |s| >= 3 && s[..3] == Utf8(u)
    ensures DecodeFirst(s) == Some((u, 3))
  {
    Sextets(u);
    assert s[0] == s[..3][0] && s[1] == s[..3][1] && s[2] == s[..3][2];
    assert s[0] as int == 0xE0 + u / 4096;
  }

  lemma Decodes4(u: nat, s: string)
    requires 0x10000 <= u < 0x110000 && |s| >= 4 && s[..4] == Utf8(u)
    ensures DecodeFirst(s) == Some((u, 4))
  {
    Sextets(u);
    assert s[0] == s[..4][0] && s[1] == s[..4][1] && s[2] == s[..4][2] && s[3] == s[..4][3];
    assert s[0] as int == 0xF0 + u / 262144;
  }

  /** The bytes the tokener writes for a code point decode to that code point. */
  lemma Utf8Decodes(u: nat, rest: string)
    requires IsScalar(u)
    ensures DecodeFirst(Utf8(u) + rest) == Some((u, |Utf8(u)|))
    ensures (Utf8(u) + rest)[|Utf8(u)|..] == rest
  {
    var s := Utf8(u) + rest;
    assert s[..|Utf8(u)|] == Utf8(u);
    if u < 0x80 {
      assert s[0] == Utf8(u)[0];
    } else {
      hide DecodeFirst;
      if u < 0x800 { Decodes2(u, s); }
      else if u < 0x10000 { Decodes3(u, s); }
      else { Decodes4(u, s); }
    }
  }

  lemma Utf8WellFormed(u: nat, rest: string)
    requires IsScalar(u) && WellFormed(rest)
    ensures WellFormed(Utf8(u) + rest)
  {
    Utf8Decodes(u, rest);
  }

  lemma {:induction false} WellFormedConcat(a: string, b: string)
    requires WellFormed(a) && WellFormed(b)
    ensures WellFormed(a + b)
    decreases |a|
  {
    hide DecodeFirst;
    if a == "" {
      assert a + b == b;
    } else {
      var n := DecodeFirst(a).value.1;
      DecodePrefix(a, b);
      WellFormedConcat(a[n..], b);
      assert (a + b)[n..] == a[n..] + b;
    }
  }

  lemma DecodePrefix(a: string, b: string)
    requires DecodeFirst(a).Some?
    ensures DecodeFirst(a + b) == DecodeFirst(a)
  {
    var n := DecodeFirst(a).value.1;
    assert (a + b)[0] == a[0];
    if n >= 2 { assert (a + b)[1] == a[1]; }
    if n >= 3 { assert (a + b)[2] == a[2]; }
    if n >= 4 { assert (a + b)[3] == a[3]; }
  }

  lemma ReplacementIs()
    ensures REPLACEMENT == Utf8(0xFFFD) && IsScalar(0xFFFD) && WellFormed(REPLACEMENT)
  {
    Utf8WellFormed(0xFFFD, "");
    assert Utf8(0xFFFD) + "" == Utf8(0xFFFD);
  }

  /** What a completed escape adds: perhaps a replacement for the surrogate before it, then
      nothing, a replacement or a scalar value. */
  lemma UnitParts(gotHi: nat, ucs: nat) returns (lone: string, tail: string, u: nat)
    requires ucs < 0x10000
    ensures (lone == "" || lone == REPLACEMENT) && DecodeUnit(gotHi, ucs).s == lone + tail
    ensures IsScalar(u) && (tail == "" || tail == REPLACEMENT || tail == Utf8(u))
  {
    hide Utf8;
    var paired := gotHi != 0 && IsLow(ucs);
    lone := if gotHi != 0 && !paired then REPLACEMENT else "";
    u := if paired then DecodePair(gotHi, ucs) else ucs;
    var d := DecodeUnit(gotHi, ucs);
    if d.HighHalf? {
      tail, u := "", 0;
      assert lone + tail == lone;
    } else if (u >= 0x800 && IsLow(u)) || u >= 0x110000 {
      tail, u := REPLACEMENT, 0;
    } else {
      tail := Utf8(u);
    }
  }

  /** Whatever surrogates it meets, a completed escape adds well-formed UTF-8. */
  lemma UnitWellFormed(gotHi: nat, ucs: nat)
    requires ucs < 0x10000
    ensures var d := DecodeUnit(gotHi, ucs); WellFormed(d.s) && WellFormed(d.s + REPLACEMENT)
  {
    hide DecodeUnit, WellFormed, Utf8;
    ReplacementIs();
    EmptyWellFormed();
    var lone, tail, u := UnitParts(gotHi, ucs);
    Utf8WellFormed(u, "");
    assert Utf8(u) + "" == Utf8(u);
    WellFormedConcat(lone, tail);
    WellFormedConcat(lone + tail, REPLACEMENT);
  }

  // ------------------------------------------------------------ escapes in a run

  lemma {:induction false} PartBound(buf: string, s: nat, n: nat)
    requires n <= 4 && s + n <= |buf| && forall k | s <= k < s + n :: IsHex(buf[k])
    ensures PartVal(buf, s, n) <= 0x10000 - (if n < 4 then Shift(n) * 16 else 1)
    ensures n == 4 ==> PartVal(buf, s, n) < 0x10000
  {
    if n > 0 {
      PartBound(buf, s, n - 1);
    }
  }

  /** u is t inside the same string or key, with s added. */
  ghost predicate Added(t: Tok, u: Tok, s: string) {
    && Wf(u) && u.cfg == t.cfg && u.below == t.below && u.quote == t.quote
    && u.top.state == t.top.state && u.top.current == t.top.current && u.top.field == t.top.field
    && u.pb == t.pb + s
  }

  /** t waits for the first of four hex digits. */
  ghost predicate InEscape(t: Tok) {
    Wf(t) && t.top.state == EscapeUnicode && t.stPos == 0 && t.ucs == 0
  }

  /** Three of four digits. */
  lemma ThreeDigits(t: Tok, buf: string, i: nat) returns (u: Tok)
    requires InEscape(t) && i >= 2 && EscapeEndsAt(buf, i + 4)
    ensures u == t.(ucs := PartVal(buf, i, 3), stPos := 3) && Wf(u)
    ensures RunTo(t, buf, i, i + 3) == Some(u)
  {
    hide RunTo, Micro, StepCodePoint, StepOk, TopOk, ParentsOk, HexVal;
    assert PartVal(buf, i, 0) == 0;
    assert PartVal(buf, i, 1) == HexVal(buf[i]) * Shift(0);
    assert PartVal(buf, i, 2) == PartVal(buf, i, 1) + HexVal(buf[i + 1]) * Shift(1);
    assert PartVal(buf, i, 3) == PartVal(buf, i, 2) + HexVal(buf[i + 2]) * Shift(2);
    DigitTo(t, buf, i, i + 3);
    var t1 := t.(ucs := PartVal(buf, i, 1), stPos := 1);
    DigitTo(t1, buf, i + 1, i + 3);
    var t2 := t.(ucs := PartVal(buf, i, 2), stPos := 2);
    DigitTo(t2, buf, i + 2, i + 3);
    u := t.(ucs := PartVal(buf, i, 3), stPos := 3);
  }

  lemma DigitTo(t: Tok, buf: string, i: nat, k: nat)
    requires Wf(t) && t.top.state == EscapeUnicode && t.stPos < 3 && i < k <= |buf| && IsHex(buf[i])
    ensures var d := t.(ucs := t.ucs + HexVal(buf[i]) * Shift(t.stPos), stPos := t.stPos + 1);
            Wf(d) && RunTo(t, buf, i, k) == RunTo(d, buf, i + 1, k) && RunTo(d, buf, i + 1, i + 1) == Some(d)
  {
    hide RunTo, Run, StateRank, Plain, StepOk, ParentsOk, TopOk, StepCodePoint;
    StepTo(t, buf, i, k);
  }

  /** The four digits of an escape, up to where its value is looked at. */
  lemma FourDigits(t: Tok, buf: string, i: nat) returns (u: Tok, d: Tok)
    requires InEscape(t) && i >= 2 && EscapeEndsAt(buf, i + 4)
    ensures Wf(u) && RunTo(t, buf, i, i + 3) == Some(u) && buf[i + 3] != '\0'
    ensures d == t.(ucs := EscapeVal(buf, i + 4), stPos := 4) && Wf(d)
    ensures Micro(u, buf, i + 3) == StepCodePoint(d, buf, i + 3)
  {
    hide RunTo, StepCodePoint, StepOk, TopOk, ParentsOk, HexVal, StateRank, Plain;
    u := ThreeDigits(t, buf, i);
    assert PartVal(buf, i, 4) == PartVal(buf, i, 3) + HexVal(buf[i + 3]) * Shift(3);
    d := t.(ucs := EscapeVal(buf, i + 4), stPos := 4);
  }

  lemma OpenEscape(t: Tok, buf: string, i: nat) returns (u: Tok)
    requires Wf(t) && (t.top.state == Str || t.top.state == Field)
    requires EscapeStartsAt(buf, i)
    ensures InEscape(u) && u.gotHi == 0 && u.top.saved == t.top.state && Added(t, u.To(t.top.state), "")
    ensures RunTo(t, buf, i, i + 2) == Some(u)
  {
    hide RunTo, StepOk, Plain, ParentsOk, StateRank, CString;
    var t1 := t.(top := t.top.(state := StrEscape, saved := t.top.state));
    QuotesAreNot(t);
    assert Micro(t, buf, i) == Next(t1, 1);
    StepTo(t, buf, i, i + 2);
    u := t1.(ucs := 0, stPos := 0, gotHi := 0).To(EscapeUnicode);
    assert Micro(t1, buf, i + 1) == Next(u, 1);
    StepTo(t1, buf, i + 1, i + 2);
    assert t.pb + "" == t.pb;
  }

  lemma QuotesAreNot(t: Tok)
    requires Wf(t) && InText(t.top.state)
    ensures t.quote != '\\'
  {
  }

  /** From the start of an escape to its last digit. */
  lemma EscapeDigits(t: Tok, buf: string, i: nat) returns (u: Tok, d: Tok)
    requires Wf(t) && (t.top.state == Str || t.top.state == Field) && EscapeEndsAt(buf, i + 6)
    ensures RunTo(t, buf, i, i + 5) == Some(u) && buf[i + 5] != '\0'
    ensures Wf(u) && Wf(d) && d.top.state == EscapeUnicode && d.stPos == 4 && d.ucs == EscapeVal(buf, i + 6) && d.gotHi == 0
    ensures d.top.saved == t.top.state && Added(t, d.To(t.top.state), "")
    ensures Micro(u, buf, i + 5) == StepCodePoint(d, buf, i + 5)
  {
    hide RunTo, Micro, Plain, TopOk, ParentsOk, StateRank, PartVal, StepOk;
    var t1 := OpenEscape(t, buf, i);
    u, d := FourDigits(t1, buf, i + 2);
    PassThrough(t, buf, i, i + 2, i + 5);
  }

  /** The escape of a code point below U+10000. */
  lemma BasicEscape(t: Tok, buf: string, i: nat) returns (u: Tok)
    requires Wf(t) && (t.top.state == Str || t.top.state == Field)
    requires EscapeEndsAt(buf, i + 6) && IsScalar(EscapeVal(buf, i + 6))
    ensures Added(t, u, Utf8(EscapeVal(buf, i + 6)))
    ensures RunTo(t, buf, i, i + 6) == Some(u) && Run(t, buf, i) == Run(u, buf, i + 6)
  {
    hide RunTo, Run, Micro, Plain, TopOk, ParentsOk, StateRank, PartVal, Utf8, DecodeUnit;
    var v := EscapeVal(buf, i + 6);
    PartBound(buf, i + 2, 4);
    BasicUnit(v);
    var t3, d := EscapeDigits(t, buf, i);
    u := StepCodePoint(d, buf, i + 5).t;
    PassThrough(t, buf, i, i + 5, i + 6);
    StepTo(t3, buf, i + 5, i + 6);
    PassThrough(t, buf, i, i + 6, i + 6);
    assert d.To(t.top.state).pb == t.pb;
  }

  lemma BasicUnit(v: nat)
    requires v < 0x10000 && IsScalar(v)
    ensures DecodeUnit(0, v) == Bytes(Utf8(v))
  {
    assert "" + Utf8(v) == Utf8(v);
  }

  /** Code points whose pair the tokener misreads: after combining the halves it looks at
      bits 10-15 once more and takes the code point for a surrogate. */
  predicate Misread(u: nat) { u >= 0x10000 && 0xD800 <= u % 0x10000 < 0xE000 }

  lemma PairRange(hi: nat, lo: nat)
    requires 0xD800 <= hi < 0xDC00 && 0xDC00 <= lo < 0xE000
    ensures IsHigh(hi) && !IsLow(hi) && IsLow(lo)
    ensures 0x10000 <= DecodePair(hi, lo) < 0x110000
  {
  }

  lemma MisreadBits(u: nat)
    requires 0x10000 <= u < 0x110000
    ensures Misread(u) <==> IsHigh(u) || IsLow(u)
    ensures Misread(u) ==> (IsHigh(u) <==> u % 0x10000 < 0xDC00)
    ensures !(IsHigh(u) && IsLow(u))
  {
    var q, r := u / 0x400, u % 0x400;
    var low := q % 64 * 0x400 + r;
    assert u == q / 64 * 0x10000 + low;
    assert u % 0x10000 == low;
    assert low < 0xDC00 <==> q % 64 < 55;
    assert low < 0xD800 <==> q % 64 < 54;
    assert low < 0xE000 <==> q % 64 < 56;
  }

  lemma PairUnit(hi: nat, lo: nat)
    requires 0xD800 <= hi < 0xDC00 && 0xDC00 <= lo < 0xE000
    ensures var u := DecodePair(hi, lo);
            && 0x10000 <= u < 0x110000 && IsScalar(u)
            && DecodeUnit(0, hi) == HighHalf("", hi)
            && (!Misread(u) ==> DecodeUnit(hi, lo) == Bytes(Utf8(u)))
            && (Misread(u) && u % 0x10000 < 0xDC00 ==> DecodeUnit(hi, lo) == HighHalf("", u))
            && (Misread(u) && u % 0x10000 >= 0xDC00 ==> DecodeUnit(hi, lo) == Bytes(REPLACEMENT))
  {
    PairRange(hi, lo);
    MisreadBits(DecodePair(hi, lo));
    hide DecodePair, IsHigh, IsLow, Misread, Utf8;
    var u := DecodePair(hi, lo);
    assert "" + Utf8(u) == Utf8(u) && "" + REPLACEMENT == REPLACEMENT;
  }

  /** Every supplementary code point has exactly this pair. */
  lemma PairOf(u: nat)
    requires 0x10000 <= u < 0x110000
    ensures var hi, lo := 0xD800 + (u - 0x10000) / 0x400, 0xDC00 + (u - 0x10000) % 0x400;
            0xD800 <= hi < 0xDC00 && 0xDC00 <= lo < 0xE000 && DecodePair(hi, lo) == u
  {
    var hi := 0xD800 + (u - 0x10000) / 0x400;
    assert hi % 0x400 == (u - 0x10000) / 0x400;
    assert (0xDC00 + (u - 0x10000) % 0x400) % 0x400 == (u - 0x10000) % 0x400;
  }

  /** The escape of a high surrogate with another escape behind it. */
  lemma HighEscape(t: Tok, buf: string, i: nat) returns (u: Tok)
    requires Wf(t) && (t.top.state == Str || t.top.state == Field)
    requires EscapeEndsAt(buf, i + 6) && EscapeEndsAt(buf, i + 12)
    requires 0xD800 <= EscapeVal(buf, i + 6) < 0xDC00
    ensures InEscape(u) && u.gotHi == EscapeVal(buf, i + 6) && u.top.saved == t.top.state && Added(t, u.To(t.top.state), "")
    ensures RunTo(t, buf, i, i + 8) == Some(u)
  {
    hide RunTo, Run, Micro, Plain, TopOk, ParentsOk, StateRank, PartVal, DecodeUnit;
    var t3, d := EscapeDigits(t, buf, i);
    PairUnit(EscapeVal(buf, i + 6), 0xDC00);
    u := StepCodePoint(d, buf, i + 5).t;
    assert EscapeAhead(buf, i + 5);
    assert d.pb + "" == d.pb == t.pb;
    PassThrough(t, buf, i, i + 5, i + 8);
    StepTo(t3, buf, i + 5, i + 8);
  }

  /** From the start of a pair to its last digit. */
  lemma PairDigits(t: Tok, buf: string, i: nat) returns (u: Tok, d: Tok)
    requires Wf(t) && (t.top.state == Str || t.top.state == Field)
    requires EscapeEndsAt(buf, i + 6) && EscapeEndsAt(buf, i + 12)
    requires 0xD800 <= EscapeVal(buf, i + 6) < 0xDC00
    ensures RunTo(t, buf, i, i + 11) == Some(u) && buf[i + 11] != '\0'
    ensures Wf(u) && Wf(d) && d.top.state == EscapeUnicode && d.ucs == EscapeVal(buf, i + 12) && d.gotHi == EscapeVal(buf, i + 6)
    ensures d.top.saved == t.top.state && Added(t, d.To(t.top.state), "")
    ensures Micro(u, buf, i + 11) == StepCodePoint(d, buf, i + 11)
  {
    hide RunTo, Run, Micro, Plain, TopOk, ParentsOk, StateRank, PartVal;
    var t1 := HighEscape(t, buf, i);
    u, d := FourDigits(t1, buf, i + 8);
    PassThrough(t, buf, i, i + 8, i + 11);
  }

  /** What the pair at i does to a string or a key: the bytes s are appended, or nothing is
      and the code point waits as if it were a high surrogate for the escape behind it,
      whose `\u` has been read. */
  ghost predicate PairAppends(t: Tok, buf: string, i: nat, s: string)
    requires Wf(t) && i + 12 <= |buf|
  {
    var r := RunTo(t, buf, i, i + 12);
    r.Some? && Added(t, r.value, s)
  }

  ghost predicate PairWaits(t: Tok, buf: string, i: nat, u: nat)
    requires Wf(t) && i + 14 <= |buf|
  {
    var r := RunTo(t, buf, i, i + 14);
    if i + 14 == |buf| then r.None? && Run(t, buf, i).err == Continue
    else r.Some? && InEscape(r.value) && r.value.gotHi == u && Added(t, r.value.To(t.top.state), "")
  }

  /** A surrogate pair becomes the UTF-8 of its code point exactly if the code point is not
      one of those the tokener misreads, whatever comes behind the pair.  A misread one
      becomes the replacement character, unless the tokener takes it for a high surrogate
      and another escape follows. */
  lemma PairEscape(t: Tok, buf: string, i: nat)
    requires Wf(t) && (t.top.state == Str || t.top.state == Field)
    requires EscapeEndsAt(buf, i + 6) && EscapeEndsAt(buf, i + 12)
    requires 0xD800 <= EscapeVal(buf, i + 6) < 0xDC00 && 0xDC00 <= EscapeVal(buf, i + 12) < 0xE000
    ensures var cp := DecodePair(EscapeVal(buf, i + 6), EscapeVal(buf, i + 12));
            && IsScalar(cp)
            && (PairAppends(t, buf, i, Utf8(cp)) <==> !Misread(cp))
            && (Misread(cp) ==>
                  if cp % 0x10000 < 0xDC00 && EscapeAhead(buf, i + 11) then PairWaits(t, buf, i, cp)
                  else PairAppends(t, buf, i, REPLACEMENT))
  {
    hide RunTo, Run, Micro, Plain, TopOk, ParentsOk, StateRank, PartVal, DecodeUnit, Utf8, InEscape;
    var hi, lo := EscapeVal(buf, i + 6), EscapeVal(buf, i + 12);
    PairUnit(hi, lo);
    var cp := DecodePair(hi, lo);
    FourBytes(cp);
    var t3, d := PairDigits(t, buf, i);
    PassThrough(t, buf, i, i + 11, i + 12);
    assert "" + REPLACEMENT == REPLACEMENT && d.pb == t.pb && d.pb + "" == d.pb;
    if Misread(cp) && cp % 0x10000 < 0xDC00 && EscapeAhead(buf, i + 11) {
      PassThrough(t, buf, i, i + 11, i + 14);
      PairJumps(t3, d, buf, i + 11, cp);
    } else {
      StepTo(t3, buf, i + 11, i + 12);
    }
  }

  lemma PairJumps(u: Tok, d: Tok, buf: string, j: nat, cp: nat)
    requires Wf(u) && Wf(d) && d.top.state == EscapeUnicode && EscapeAhead(buf, j) && buf[j] != '\0'
    requires Micro(u, buf, j) == StepCodePoint(d, buf, j) && DecodeUnit(d.gotHi, d.ucs) == HighHalf("", cp)
    ensures RunTo(u, buf, j, j + 1) == None
    ensures if j + 3 == |buf| then RunTo(u, buf, j, j + 3) == None && Run(u, buf, j).err == Continue
            else var w := d.(gotHi := cp, ucs := 0, stPos := 0); InEscape(w) && RunTo(u, buf, j, j + 3) == Some(w)
  {
    hide Plain, ParentsOk, StateRank, StepOk, Micro, DecodeUnit;
    assert d.pb + "" == d.pb;
    RunStep(u, buf, j);
  }

  lemma FourBytes(u: nat)
    requires 0x10000 <= u < 0x110000
    ensures |Utf8(u)| == 4 && |REPLACEMENT| == 3
  {
  }

  /** From inside an escape, with or without a waiting surrogate: whatever follows in this
      buffer, the bytes added until the string goes on or the call ends are well-formed. */
  lemma {:induction false} EscapesWellFormed(t: Tok, buf: string, i: nat, kept: Kept) returns (u: Tok, j: nat, s: string)
    requires Wf(t) && t.top.state == EscapeUnicode && Follows(t, buf, i, kept)
    ensures WellFormed(s) && u.pb == t.pb + s
    ensures (i < j <= |buf| && Wf(u) && u.top.state == t.top.saved && Run(t, buf, i) == Run(u, buf, j))
            || Run(t, buf, i).t == u
    decreases |buf| - i
  {
    hide Run, Micro, Plain, TopOk, ParentsOk, StateRank, DecodeUnit, WellFormed, StepCodePoint, Follows, LowAhead;
    ReplacementIs();
    EmptyWellFormed();
    assert t.pb + "" == t.pb;
    u, j, s := t, i, "";
    EarlyEnough(t, buf, i, kept);
    if i == |buf| {
      RunEnd(t, buf);
      if t.gotHi != 0 { u, s := t.Append(REPLACEMENT), REPLACEMENT; }
    } else if !IsHex(buf[i]) {
      BadDigit(t, buf, i);
    } else {
      GoodDigit(t, buf, i);
      var d := t.(ucs := t.ucs + HexVal(buf[i]) * Shift(t.stPos), stPos := t.stPos + 1);
      if t.stPos < 3 {
        DigitFollows(t, buf, i, kept);
        u, j, s := EscapesWellFormed(d, buf, i + 1, kept);
      } else {
        assert HexVal(buf[i]) * Shift(3) == HexVal(buf[i]);
        u, j, s := UnitAppends(t, d, buf, i, kept);
      }
    }
  }

  lemma EmptyWellFormed()
    ensures WellFormed("")
  {
  }

  lemma EarlyEnough(t: Tok, buf: string, i: nat, kept: Kept)
    requires t.top.state == EscapeUnicode && Follows(t, buf, i, kept)
    ensures i <= |buf| && t.stPos <= 3
  {
    UnitDigits(buf, i);
  }

  lemma DigitFollows(t: Tok, buf: string, i: nat, kept: Kept)
    requires Wf(t) && t.top.state == EscapeUnicode && Follows(t, buf, i, kept) && i < |buf| && IsHex(buf[i]) && t.stPos < 3
    ensures Follows(t.(ucs := t.ucs + HexVal(buf[i]) * Shift(t.stPos), stPos := t.stPos + 1), buf, i + 1, kept)
  {
    hide ParentsOk, TopOk, StateRank, ModeAt, LowAhead, WaitingAfter, HexVal, DecodeUnit;
    UnitDigits(buf, i);
    ModeNext(buf, i);
  }

  lemma FourthBound(t: Tok, buf: string, i: nat, kept: Kept)
    requires Wf(t) && t.top.state == EscapeUnicode && Follows(t, buf, i, kept) && i < |buf| && IsHex(buf[i]) && t.stPos == 3
    ensures Completed(t, buf[i]).ucs < 0x10000
  {
    hide ParentsOk, TopOk, StateRank, ModeAt, LowAhead, WaitingAfter, HexVal, DecodeUnit, Waits;
    UnitDigits(buf, i);
    UnitEnds(buf, i);
    PartBound(buf, i - 3, 4);
  }

  lemma UnitAppends(t: Tok, d: Tok, buf: string, i: nat, kept: Kept) returns (u: Tok, j: nat, s: string)
    requires Wf(t) && t.top.state == EscapeUnicode && Follows(t, buf, i, kept) && t.stPos == 3
    requires i < |buf| && IsHex(buf[i])
    requires d == Completed(t, buf[i]) && Wf(d)
    requires StepRan(StepCodePoint(d, buf, i), buf, i, Run(t, buf, i))
    ensures WellFormed(s) && u.pb == t.pb + s
    ensures (i < j <= |buf| && Wf(u) && u.top.state == t.top.saved && Run(t, buf, i) == Run(u, buf, j))
            || Run(t, buf, i).t == u
    decreases |buf| - i, 0
  {
    hide Run, Micro, Plain, TopOk, ParentsOk, StateRank, DecodeUnit, WellFormed, Follows;
    FourthBound(t, buf, i, kept);
    MicroFollows(t, buf, i, kept);
    FourthDigit(t, buf, i);
    CodePointStep(d, buf, i);
    UnitWellFormed(d.gotHi, d.ucs);
    var step := StepCodePoint(d, buf, i);
    var unit := DecodeUnit(d.gotHi, d.ucs);
    if step.Next? && step.n == 3 {
      var more;
      u, j, more := EscapesWellFormed(step.t, buf, i + 3, kept);
      WellFormedConcat(unit.s, more);
      s := unit.s + more;
      assert t.pb + unit.s + more == t.pb + s;
    } else {
      u, j := step.t, i + 1;
      s := if unit.Bytes? then unit.s else unit.s + REPLACEMENT;
    }
  }
}
