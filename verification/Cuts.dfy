/** Where a text may be kept, and the theorem that cutting it there changes nothing. */
module Cuts {
  import opened JsonValue
  import opened Sequences
  import opened Tokener
  import opened Resume
  import opened TextScan

  // ------------------------------------------------------------ two ways to the same end

  /** A quote that closes a string or a key stands at z. */
  predicate Closes(buf: string, z: nat) {
    z < |buf| && ModeAt(buf, z).Quoted? && buf[z] == ModeAt(buf, z).quote
  }

  /** From t at i and from u at k the loop ends the same, and stands the same at the closing quote z. */
  ghost predicate Same(t: Tok, buf: string, i: nat, u: Tok, k: nat, z: nat) {
    && Wf(t) && Wf(u) && i <= |buf| && k <= |buf|
    && Run(t, buf, i) == Run(u, buf, k)
    && (Closes(buf, z) && i <= z && k <= z ==> RunTo(t, buf, i, z) == RunTo(u, buf, k, z))
  }

  lemma StepSame(t: Tok, buf: string, i: nat, z: nat, kept: Kept)
    requires Wf(t) && i < |buf| && Follows(t, buf, i, kept)
    ensures var s := Micro(t, buf, i);
            && (s.Redo? ==> Same(t, buf, i, s.t, i, z))
            && (s.Next? && buf[i] != '\0' ==> Same(t, buf, i, s.t, i + s.n, z))
  {
    hide Micro, Plain, TopOk, ParentsOk, StateRank, Rank, ModeAt, LowAhead;
    if InText(t.top.state) { TextDoesNotRedo(t, buf, i); }
  }

  lemma TextDoesNotRedo(t: Tok, buf: string, i: nat)
    requires Wf(t) && i < |buf| && InText(t.top.state)
    ensures !Micro(t, buf, i).Redo?
  {
    hide Plain, TopOk, ParentsOk, StateRank, StepOk;
  }

  /** What the end of a call does to a surrogate that waits. */
  function Flushed(t: Tok): Tok {
    if t.top.state == EscapeUnicode && t.gotHi != 0 then t.Append(REPLACEMENT).(gotHi := 0) else t
  }

  // ------------------------------------------------------------ a cut

  /** A run that is good goes on. */
  lemma GoesOn(t: Tok, buf: string, i: nat)
    requires Wf(t) && i + 1 < |buf| && Good(Run(t, buf, i), buf)
    ensures var s := Micro(t, buf, i); !s.Out? && (s.Next? && s.n == 1 ==> buf[i] != '\0')
  {
    hide Micro, Plain, TopOk, ParentsOk, StateRank, Rank;
  }

  lemma HexNotNul(t: Tok, buf: string, i: nat)
    requires Wf(t) && i < |buf| && t.top.state == EscapeUnicode && Micro(t, buf, i).Next?
    ensures buf[i] != '\0' && IsHex(buf[i]) && t.stPos < 4
  {
    hide Plain, TopOk, ParentsOk, StateRank, Rank, StepOk, StepCodePoint;
  }

  lemma Backslash(t: Tok, buf: string, i: nat)
    requires Wf(t) && (t.top.state == Str || t.top.state == Field) && i < |buf| && buf[i] == '\\'
    ensures Micro(t, buf, i) == Next(t.(top := t.top.(state := StrEscape, saved := t.top.state)), 1)
  {
    hide Plain, TopOk, ParentsOk, StateRank, StepOk, CString;
  }

  lemma BackslashU(t: Tok, buf: string, i: nat)
    requires Wf(t) && t.top.state == StrEscape && i < |buf| && buf[i] == 'u'
    ensures Micro(t, buf, i) == Next(t.(ucs := 0, stPos := 0, gotHi := 0).To(EscapeUnicode), 1)
  {
    hide Plain, TopOk, ParentsOk, StateRank, StepOk;
  }

  /** An ordinary step leads to the same end. */
  lemma NextSame(t: Tok, buf: string, i: nat, u: Tok, z: nat)
    requires Wf(t) && i < |buf| && buf[i] != '\0' && Micro(t, buf, i) == Next(u, 1) && !(Closes(buf, z) && z == i)
    ensures Same(t, buf, i, u, i + 1, z)
  {
    hide Micro, Plain, TopOk, ParentsOk, StateRank, Rank, ModeAt;
  }

  /** The two characters that start an escape, read one by one. */
  lemma ReadStart(b: Tok, buf: string, e: nat, z: nat) returns (c: Tok, f: Tok)
    requires Wf(b) && (b.top.state == Str || b.top.state == Field) && b.gotHi == 0
    requires EscapeStartsAt(buf, e) && Tracks(b, ModeAt(buf, e))
    ensures c == b.(top := b.top.(state := StrEscape, saved := b.top.state))
    ensures f == c.(ucs := 0, stPos := 0, gotHi := 0).To(EscapeUnicode)
    ensures Wf(c) && Micro(b, buf, e) == Next(c, 1) && Tracks(c, ModeAt(buf, e + 1))
    ensures Same(b, buf, e, f, e + 2, z) && Same(c, buf, e + 1, f, e + 2, z)
    ensures Closes(buf, z) && e <= z ==> e + 2 <= z
  {
    hide Micro, Plain, TopOk, ParentsOk, StateRank, Rank, ModeAt, Run, RunTo, StepOk;
    ModeNext(buf, e);
    assert ModeAt(buf, e + 1) == Escaped(b.quote, ModeAt(buf, e).hi) by { QuoteIsQuote(b); }
    c := b.(top := b.top.(state := StrEscape, saved := b.top.state));
    Backslash(b, buf, e);
    NextSame(b, buf, e, c, z);
    f := c.(ucs := 0, stPos := 0, gotHi := 0).To(EscapeUnicode);
    BackslashU(c, buf, e + 1);
    NextSame(c, buf, e + 1, f, z);
  }

  lemma QuoteIsQuote(t: Tok)
    requires Wf(t) && InText(t.top.state)
    ensures t.quote == '"' || t.quote == '\''
  {
  }

  /** The fourth digit c completes a high surrogate, and no escape follows. */
  function Replaced(t: Tok, c: char): Tok
    requires IsHex(c) && t.stPos < 4
  {
    var ucs := t.ucs + HexVal(c) * Shift(t.stPos);
    t.(ucs := ucs, stPos := t.stPos + 1, gotHi := 0).To(t.top.saved).Append(DecodeUnit(t.gotHi, ucs).s + REPLACEMENT)
  }

  lemma HighStep(t: Tok, buf: string, i: nat, a: Tok)
    requires Wf(t) && t.top.state == EscapeUnicode && i < |buf| && Micro(t, buf, i) == Next(a, 3)
    ensures IsHex(buf[i]) && t.stPos == 3 && EscapeStartsAt(buf, i + 1)
    ensures DecodeUnit(t.gotHi, t.ucs + HexVal(buf[i]) * Shift(3)).HighHalf?
    ensures var b := Replaced(t, buf[i]);
            && Wf(b) && (b.top.state == Str || b.top.state == Field) && b.gotHi == 0 && b.quote == t.quote
            && Flushed(a) == b.(top := b.top.(state := EscapeUnicode, saved := b.top.state), ucs := 0, stPos := 0)
            && Wf(a) && a.gotHi != 0 && a.top.state == EscapeUnicode && a.stPos == 0
  {
    hide Plain, ParentsOk, StateRank, StepOk, DecodeUnit, HexVal, Shift;
    var ucs := t.ucs + HexVal(buf[i]) * Shift(t.stPos);
    var d := DecodeUnit(t.gotHi, ucs);
    assert t.pb + (d.s + REPLACEMENT) == t.pb + d.s + REPLACEMENT;
  }

  /** The same step in a piece that ends before the `u`. */
  lemma HighStepCut(u: Tok, p: string, j: nat)
    requires Wf(u) && u.top.state == EscapeUnicode && u.stPos == 3 && j < |p| <= j + 2 && IsHex(p[j])
    requires DecodeUnit(u.gotHi, u.ucs + HexVal(p[j]) * Shift(3)).HighHalf?
    ensures Micro(u, p, j) == Next(Replaced(u, p[j]), 1)
  {
    hide Plain, ParentsOk, TopOk, StateRank, StepOk, DecodeUnit, HexVal, Shift;
    assert !EscapeAhead(p, j);
  }

  lemma ReplacedSim(t: Tok, u: Tok, c: char)
    requires Wf(t) && Sim(t, u) && t.top.state == EscapeUnicode && IsHex(c) && t.stPos < 4
    ensures Sim(Replaced(t, c), Replaced(u, c))
  {
    hide ParentsOk, StateRank, StepOk, DecodeUnit, HexVal, Shift;
    SavedKinds(t);
  }

  /** Both at a cut: t saw the text from its start, and w stands for the tokener that goes on
      with the next piece.  If w has lost a surrogate, a is t a little further on, at x. */
  ghost predicate AtCut(v: Tok, w: Tok, a: Tok, x: nat, buf: string, k: nat, z: nat, kept: Kept) {
    && Wf(w) && Wf(a) && k <= x <= |buf|
    && Sim(w, StartCall(AtEnd(v, 0).t))
    && w.gotHi == 0 && Settled(w) && Tracks(w, ModeAt(buf, k)) && InWord(w)
    && Follows(a, buf, x, kept) && Same(w, buf, k, Flushed(a), x, z)
    && (Closes(buf, z) && k <= z ==> x <= z)
    && (if a.gotHi == 0 then x == k && w == a
        else a.top.state == EscapeUnicode && EscapeStart(ModeAt(buf, k), k) == x - 2 - a.stPos && Hi(ModeAt(buf, k)) != 0)
  }

  /** Right behind the start of an escape that follows a surrogate. */
  predicate BehindStart(m: Mode) { m.Unit? && m.n == 0 && m.hi != 0 }

  lemma FlushAtEnd(t: Tok, u: Tok)
    requires Sim(t, u) && Settled(t) && (t.top.state != EscapeUnicode ==> t.gotHi == 0)
    ensures Sim(Flushed(t), StartCall(AtEnd(u, 0).t))
  {
  }

  lemma FlushedWf(t: Tok)
    requires Wf(t)
    ensures Wf(Flushed(t)) && Flushed(t).top == t.top
  {
    hide TopOk, ParentsOk;
  }

  /** The call that ends right where the other one stands. */
  lemma CutHere(t: Tok, u: Tok, buf: string, k: nat, p: string, z: nat, kept: Kept) returns (v: Tok, w: Tok, a: Tok, x: nat)
    requires Wf(t) && Wf(u) && Sim(t, u) && Follows(t, buf, k, kept) && Settled(t)
    ensures Run(u, p, |p|) == AtEnd(v, |p|) && AtCut(v, w, a, x, buf, k, z, kept) && Same(t, buf, k, a, x, z) && k <= x
  {
    hide Micro, Plain, TopOk, ParentsOk, StateRank, Rank, ModeAt, LowAhead, Wf, Sim;
    v, w, a, x := u, Flushed(t), t, k;
    FlushedWf(t);
    FlushAtEnd(t, u);
  }

  lemma SimFields(t: Tok, u: Tok)
    requires Sim(t, u)
    ensures u.top == t.top && u.below == t.below && u.stPos == t.stPos && u.ucs == t.ucs && u.gotHi == t.gotHi
  {
  }

  lemma TracksReplaced(t: Tok, buf: string, i: nat, a: Tok, kept: Kept)
    requires Wf(t) && t.top.state == EscapeUnicode && Follows(t, buf, i, kept) && i + 3 < |buf| + 1
    requires Micro(t, buf, i) == Next(a, 3) && Follows(a, buf, i + 3, kept)
    requires a.gotHi != 0 && a.top.state == EscapeUnicode && EscapeStartsAt(buf, i + 1)
    requires IsHex(buf[i]) && t.stPos == 3
    ensures ModeAt(buf, i + 1).Quoted? && ModeAt(buf, i + 1).quote == t.quote && ModeAt(buf, i + 1).hi != 0
  {
    hide Micro, TopOk, ParentsOk, StateRank, StepOk, Plain, ModeAt, DecodeUnit, WaitingAfter, LowAhead, HexVal;
    QuoteIsQuote(t);
    ModeNext(buf, i);
    ModeAfterHigh(buf, i);
  }

  /** The piece that ends before the `\u` behind a surrogate, and the one that ends in it:
      the steps of the call. */
  lemma CutCall(t: Tok, u: Tok, buf: string, i: nat, k: nat, p: string, j: nat, a: Tok) returns (v: Tok)
    requires Wf(t) && Wf(u) && Sim(t, u) && t.top.state == EscapeUnicode && i < k < i + 3 && k < |buf|
    requires Window(buf, i, p, j) && k - i == |p| - j && Micro(t, buf, i) == Next(a, 3)
    ensures IsHex(buf[i]) && t.stPos == 3 && Wf(v) && Run(u, p, j) == AtEnd(v, |p|)
    ensures var b := Replaced(t, buf[i]);
            Sim(if k == i + 1 then b else b.(top := b.top.(state := StrEscape, saved := b.top.state)), v)
  {
    hide Micro, Plain, TopOk, ParentsOk, StateRank, Rank, StepOk, Replaced, Wf;
    HighStep(t, buf, i, a);
    SimFields(t, u);
    HighStepCut(u, p, j);
    ReplacedSim(t, u, buf[i]);
    v := Replaced(u, buf[i]);
    HexNotNul(t, buf, i);
    RunNext(u, p, j, v, 1);
    if k == i + 2 {
      var c := v.(top := v.top.(state := StrEscape, saved := v.top.state));
      Backslash(v, p, j + 1);
      RunNext(v, p, j + 1, c, 1);
      v := c;
    }
  }

  /** Where the next call goes on, and that it comes to the same point. */
  lemma CutGoesOn(t: Tok, buf: string, i: nat, k: nat, z: nat, a: Tok, kept: Kept) returns (w: Tok)
    requires Wf(t) && t.top.state == EscapeUnicode && Follows(t, buf, i, kept) && i < k < i + 3 <= |buf|
    requires Micro(t, buf, i) == Next(a, 3) && Follows(a, buf, i + 3, kept)
    ensures IsHex(buf[i]) && t.stPos == 3 && a.top.state == EscapeUnicode && a.gotHi != 0 && a.stPos == 0 && Wf(a)
    ensures var b := Replaced(t, buf[i]);
            w == if k == i + 1 then b else b.(top := b.top.(state := StrEscape, saved := b.top.state))
    ensures Wf(w) && w.gotHi == 0 && (w.top.state == Str || w.top.state == Field || w.top.state == StrEscape)
    ensures Tracks(w, ModeAt(buf, k)) && EscapeStart(ModeAt(buf, k), k) == i + 1 && Hi(ModeAt(buf, k)) != 0
    ensures Same(w, buf, k, Flushed(a), i + 3, z) && (Closes(buf, z) && k <= z ==> i + 3 <= z)
  {
    hide Micro, Plain, TopOk, ParentsOk, StateRank, Rank, ModeAt, LowAhead, RunTo, Run, StepOk, Replaced, Same, Wf, Follows;
    HighStep(t, buf, i, a);
    HexNotNul(t, buf, i);
    QuoteIsQuote(t);
    TracksReplaced(t, buf, i, a, kept);
    var b := Replaced(t, buf[i]);
    var c, f := ReadStart(b, buf, i + 1, z);
    w := if k == i + 1 then b else c;
    ModeEscaped(buf, i + 1);
  }

  /** The call that ends before the `u` of an escape that the other one has stepped over. */
  lemma CutInside(t: Tok, u: Tok, buf: string, i: nat, k: nat, p: string, j: nat, z: nat, kept: Kept)
    returns (v: Tok, w: Tok, a: Tok, x: nat)
    requires Wf(t) && Wf(u) && Sim(t, u) && Follows(t, buf, i, kept) && i < k < i + 3 && k < |buf|
    requires Window(buf, i, p, j) && k - i == |p| - j
    requires Micro(t, buf, i).Next? && Micro(t, buf, i).n == 3
    ensures Run(u, p, j) == AtEnd(v, |p|) && AtCut(v, w, a, x, buf, k, z, kept) && Same(t, buf, i, a, x, z) && k <= x
  {
    hide Micro, Plain, TopOk, ParentsOk, StateRank, Rank, ModeAt, LowAhead, RunTo, Run, Sim, StepOk, Replaced, Same, Wf,
         Tracks, EscapeStart, Follows, Flushed;
    MicroFollows(t, buf, i, kept);
    a, x := Micro(t, buf, i).t, i + 3;
    OnlySurrogatesJump(t, buf, i);
    v := CutCall(t, u, buf, i, k, p, j, a);
    w := CutGoesOn(t, buf, i, k, z, a, kept);
    HexNotNul(t, buf, i);
    StepSame(t, buf, i, z, kept);
    FlushAtEnd(w, v);
    NothingToFlush(w);
  }

  lemma NothingToFlush(t: Tok)
    requires t.gotHi == 0
    ensures Flushed(t) == t
  {
  }

  lemma ModeEscaped(buf: string, e: nat)
    requires e < |buf| && ModeAt(buf, e).Quoted? && buf[e] == '\\' && ModeAt(buf, e).quote != '\\'
    ensures ModeAt(buf, e + 1) == Escaped(ModeAt(buf, e).quote, ModeAt(buf, e).hi)
  {
    ModeNext(buf, e);
  }

  lemma OnlySurrogatesJump(t: Tok, buf: string, i: nat)
    requires Wf(t) && i < |buf| && Micro(t, buf, i).Next? && Micro(t, buf, i).n == 3
    ensures t.top.state == EscapeUnicode
  {
    hide Micro, TopOk, ParentsOk, StateRank, StepOk;
    if t.top.state == StrEscape { EscapeIsOne(t, buf, i); }
  }

  lemma EscapeIsOne(t: Tok, buf: string, i: nat)
    requires Wf(t) && i < |buf| && t.top.state == StrEscape
    ensures var s := Micro(t, buf, i); s.Next? ==> s.n == 1
  {
    hide TopOk, ParentsOk, StateRank, StepOk;
  }

  lemma SameTrans(t: Tok, buf: string, i: nat, u: Tok, k: nat, w: Tok, x: nat, z: nat)
    requires Same(t, buf, i, u, k, z) && Same(u, buf, k, w, x, z) && i <= k <= x
    ensures Same(t, buf, i, w, x, z)
  {
    hide Run, RunTo, Wf;
  }

  /** A call whose piece ends at k, beside the call that saw the whole text. */
  lemma {:induction false} CutRun(t: Tok, u: Tok, buf: string, i: nat, k: nat, p: string, j: nat, z: nat, kept: Kept)
    returns (v: Tok, w: Tok, a: Tok, x: nat)
    requires Wf(t) && Wf(u) && Sim(t, u) && Follows(t, buf, i, kept) && (i == k ==> Settled(t))
    requires i <= k < |buf| && Window(buf, i, p, j) && k - i == |p| - j
    requires Good(Run(t, buf, i), buf) && !BehindStart(ModeAt(buf, k))
    ensures Run(u, p, j) == AtEnd(v, |p|) && AtCut(v, w, a, x, buf, k, z, kept) && Same(t, buf, i, a, x, z) && k <= x
    decreases |buf| - i, Rank(t)
  {
    hide Micro, Plain, TopOk, ParentsOk, StateRank, Rank, ModeAt, LowAhead, Sim, AtCut, Run, RunTo, StepOk, Waits, InWord,
         Closes, Good;
    if i == k {
      v, w, a, x := CutHere(t, u, buf, k, p, z, kept);
    } else {
      GoesOn(t, buf, i);
      RunStep(t, buf, i);
      MicroFollows(t, buf, i, kept);
      var s := Micro(t, buf, i);
      if s.Next? && s.n > 1 { OnlySurrogatesJump(t, buf, i); HexNotNul(t, buf, i); }
      StepSame(t, buf, i, z, kept);
      if s.Next? && i + s.n > k {
        v, w, a, x := CutInside(t, u, buf, i, k, p, j, z, kept);
      } else {
        if s.Next? && s.n > 1 && i + s.n == k { JumpsBehindStart(s.t, buf, k, kept); }
        var u1 := CutStep(t, u, buf, i, k, p, j, kept);
        var i1, j1 := if s.Redo? then i else i + s.n, if s.Redo? then j else j + s.n;
        v, w, a, x := CutRun(s.t, u1, buf, i1, k, p, j1, z, kept);
        SameTrans(t, buf, i, s.t, i1, a, x, z);
      }
    }
  }

  lemma JumpsBehindStart(a: Tok, buf: string, k: nat, kept: Kept)
    requires Follows(a, buf, k, kept) && a.top.state == EscapeUnicode && a.gotHi != 0 && a.stPos == 0
    ensures BehindStart(ModeAt(buf, k))
  {
    hide ModeAt;
  }

  /** A step inside the piece. */
  lemma CutStep(t: Tok, u: Tok, buf: string, i: nat, k: nat, p: string, j: nat, kept: Kept) returns (u1: Tok)
    requires Wf(t) && Wf(u) && Sim(t, u) && Follows(t, buf, i, kept)
    requires i < k < |buf| && Window(buf, i, p, j) && k - i == |p| - j
    requires Good(Run(t, buf, i), buf)
    requires var s := Micro(t, buf, i);
             s.Redo? || (s.Next? && buf[i] != '\0' && i + s.n <= k && (s.n > 1 ==> i + s.n < k))
    ensures Wf(u1) && Sim(Micro(t, buf, i).t, u1)
    ensures var s := Micro(t, buf, i); Run(u, p, j) == Run(u1, p, if s.Redo? then j else j + s.n)
  {
    hide Micro, Plain, TopOk, ParentsOk, StateRank, Rank, ModeAt, LowAhead, Sim, Run, RunTo, StepOk, InWord;
    if StrayLetter(t, buf[i]) { StrayLetterFails(t, buf, i); }
    SimStep(t, u, buf, i, p, j);
    assert p[j] == buf[i];
    RunStep(u, p, j);
    u1 := Micro(u, p, j).t;
  }

  // ------------------------------------------------------------ a surrogate that was not used

  /** The fourth digit, with and without the surrogate in front. */
  lemma LastDigit(a: Tok, buf: string, x: nat)
    requires Wf(a) && a.top.state == EscapeUnicode && a.gotHi != 0 && a.stPos == 3 && x < |buf| && IsHex(buf[x])
    requires !IsLow(a.ucs + HexVal(buf[x])) && !Micro(a, buf, x).Out?
    ensures Micro(a, buf, x) == Micro(Flushed(a), buf, x)
  {
    hide ParentsOk, StateRank, TopOk, StepOk, Plain, HexVal, IsLow, IsHigh, Utf8;
    assert HexVal(buf[x]) * Shift(3) == HexVal(buf[x]);
    var ucs := a.ucs + HexVal(buf[x]);
    var one, two := DecodeUnit(a.gotHi, ucs), DecodeUnit(0, ucs);
    assert one.s == REPLACEMENT + two.s;
    assert a.pb + (REPLACEMENT + two.s) == (a.pb + REPLACEMENT) + two.s;
    assert a.pb + (REPLACEMENT + two.s + REPLACEMENT) == (a.pb + REPLACEMENT) + (two.s + REPLACEMENT);
  }

  /** Inside quotes a run that is good goes on. */
  lemma TextGoesOn(t: Tok, buf: string, i: nat)
    requires Wf(t) && InText(t.top.state) && i <= |buf| && Good(Run(t, buf, i), buf)
    ensures i < |buf| && buf[i] != '\0' && Micro(t, buf, i).Next?
  {
    hide Plain, ParentsOk, StateRank, Rank, StepOk, StepUnicode, Run;
    if i == |buf| {
      EndsInText(t, buf);
    } else {
      RunStep(t, buf, i);
      TextDoesNotRedo(t, buf, i);
      TextOut(t, buf, i);
    }
  }

  lemma EndsInText(t: Tok, buf: string)
    requires Wf(t) && InText(t.top.state)
    ensures !Good(Run(t, buf, |buf|), buf)
  {
    hide TopOk, ParentsOk;
  }

  lemma TextOut(t: Tok, buf: string, i: nat)
    requires Wf(t) && InText(t.top.state) && i < |buf|
    ensures var s := Micro(t, buf, i);
            && (s.Out? ==> s.err != Success)
            && (s.Next? && buf[i] == '\0' ==> s.t.top.state != Finish && s.t.top.saved != Finish)
  {
    hide ParentsOk, StateRank, Rank, StepOk, Plain;
  }

  /** A surrogate that no low surrogate follows may as well be replaced at once. */
  lemma {:induction false} LoneRuns(a: Tok, buf: string, x: nat, z: nat, kept: Kept)
    requires Wf(a) && Follows(a, buf, x, kept) && a.top.state == EscapeUnicode && a.gotHi != 0
    requires Good(Run(a, buf, x), buf) && !LowAhead(buf, x - 2 - a.stPos)
    ensures Same(a, buf, x, Flushed(a), x, z)
    decreases |buf| - x
  {
    hide Micro, Plain, TopOk, ParentsOk, StateRank, Rank, ModeAt, StepOk, InWord, Good, Wf, Run, RunTo, IsLow, EscapeVal, HexVal;
    TextGoesOn(a, buf, x);
    HexNotNul(a, buf, x);
    UnitDigits(buf, x);
    FlushedWf(a);
    var b := Flushed(a);
    MicroFollows(a, buf, x, kept);
    StepSame(a, buf, x, z, kept);
    if a.stPos < 3 {
      EarlyDigit(a, buf, x);
      EarlyDigit(b, buf, x);
      var a1 := Micro(a, buf, x).t;
      NextSame(b, buf, x, Flushed(a1), z);
      LoneRuns(a1, buf, x + 1, z, kept);
    } else {
      UnitEnds(buf, x);
      LastDigit(a, buf, x);
      SameStep(a, b, buf, x, z);
    }
  }

  lemma SameStep(a: Tok, b: Tok, buf: string, x: nat, z: nat)
    requires Wf(a) && Wf(b) && x < |buf| && Micro(a, buf, x) == Micro(b, buf, x) && !(Closes(buf, z) && z == x)
    ensures Same(a, buf, x, b, x, z)
  {
    hide Micro, Plain, TopOk, ParentsOk, StateRank, Rank, ModeAt;
  }

  /** The value is complete, and only white space and comments may follow. */
  predicate Complete(t: Tok) {
    t.below == [] && t.top.saved == Finish && (t.top.state == EatWs || IsCommentState(t.top.state))
  }

  /** The last character of a text that is complete only with it. */
  predicate Closing(c: char) { c == ']' || c == '}' || c == '"' }

  lemma CompleteStep(t: Tok, buf: string, i: nat)
    requires Wf(t) && Complete(t) && i < |buf|
    ensures var s := Micro(t, buf, i);
            && (s.Redo? ==> s.t.top.state == Finish && s.t.below == [])
            && (s.Next? ==> s.n == 1 && Complete(s.t) && (s.t.top.state == EatWs ==> !Closing(buf[i])))
            && (s.Out? ==> s.err != Success)
  {
    hide TopOk, ParentsOk, StateRank, StepOk, Plain;
  }

  /** After a complete value the rest of the text does not end in a bracket or a quote. */
  lemma {:induction false} AfterComplete(t: Tok, buf: string, i: nat)
    requires Wf(t) && Complete(t) && i < |buf| && Closing(buf[|buf| - 1])
    ensures !Good(Run(t, buf, i), buf)
    decreases |buf| - i
  {
    hide Micro, Plain, TopOk, ParentsOk, StateRank, Rank;
    CompleteStep(t, buf, i);
    var s := Micro(t, buf, i);
    if s.Redo? {
      FinishOut(s.t, buf, i);
    } else if s.Next? && buf[i] != '\0' && i + 1 < |buf| {
      AfterComplete(s.t, buf, i + 1);
    }
  }

  lemma FinishOut(t: Tok, buf: string, i: nat)
    requires Wf(t) && t.top.state == Finish && t.below == [] && i < |buf|
    ensures Run(t, buf, i).off == i
  {
    hide TopOk, ParentsOk, StateRank;
  }

  // ------------------------------------------------------------ the theorem

  /** Feeding the pieces one call each: every call but the last one asks for more, having
      consumed its piece, and the last one consumes its piece and returns v. */
  ghost predicate Resumes(t: Tok, pieces: seq<string>, v: JValue)
    requires Wf(t)
    decreases |pieces|
  {
    && pieces != []
    && var r := ParseEx(t, pieces[0]);
       if |pieces| == 1 then r.err == Success && r.value == v && r.off == |pieces[0]|
       else r.err == Continue && r.off == |pieces[0]| && Wf(r.t) && Resumes(r.t, pieces[1..], v)
  }

  /** The pieces make up buf from position k on, and the last one is not empty. */
  ghost predicate CutsUp(buf: string, k: nat, pieces: seq<string>)
    decreases |pieces|
  {
    && pieces != [] && k + |Concat(pieces)| == |buf| && buf[k..] == Concat(pieces)
    && (if |pieces| == 1 then pieces[0] != "" else CutsUp(buf, k + |pieces[0]|, pieces[1..]))
  }

  /** No cut is a bad one. */
  predicate CutSafely(buf: string, k: nat, pieces: seq<string>)
    decreases |pieces|
  {
    |pieces| >= 2 ==>
      && k + |pieces[0]| <= |buf| && !BadCut(buf, k + |pieces[0]|)
      && CutSafely(buf, k + |pieces[0]|, pieces[1..])
  }

  lemma PieceWindow(buf: string, k: nat, pieces: seq<string>)
    requires k <= |buf| && pieces != [] && buf[k..] == Concat(pieces)
    ensures Window(buf, k, pieces[0], 0)
  {
    var p := pieces[0];
    assert Concat(pieces) == p + Concat(pieces[1..]);
    forall j | 0 <= j < |p| ensures p[j] == buf[k + (j - 0)] {
      assert buf[k..][j] == p[j];
    }
  }

  lemma CutLeavesRest(buf: string, k: nat, pieces: seq<string>)
    requires CutsUp(buf, k, pieces)
    ensures k < |buf|
    decreases |pieces|
  {
    if |pieces| > 1 {
      CutLeavesRest(buf, k + |pieces[0]|, pieces[1..]);
    }
  }

  /** A call that ends in the middle of a text asks for more, and the next one goes on. */
  lemma CallContinues(u: Tok, p: string, w: Tok, v: Tok)
    requires Wf(u) && Wf(w) && Sim(w, StartCall(AtEnd(v, 0).t)) && Settled(w) && !Complete(w)
    requires Run(StartCall(u), p, 0) == AtEnd(v, |p|)
    ensures ParseEx(u, p) == Result(AtEnd(v, 0).t, |p|, Continue, JNull) && Wf(AtEnd(v, 0).t)
  {
    hide Wf, Run, Sim;
    SimFields(w, StartCall(AtEnd(v, 0).t));
    EndsWaiting(w, v, |p|);
  }

  lemma EndsWaiting(w: Tok, v: Tok, off: nat)
    requires Settled(w) && !Complete(w) && v.top == w.top && v.below == w.below
    ensures Conclude(AtEnd(v, off)) == Result(AtEnd(v, 0).t, off, Continue, JNull)
  {
  }

  /** If the cut is not bad, the tokener that goes on with the next piece is as good as the
      one that saw the whole text. */
  lemma CutIsSafe(t: Tok, buf: string, i: nat, v: Tok, w: Tok, a: Tok, x: nat, k: nat, z: nat, kept: Kept)
    requires Same(t, buf, i, a, x, z) && i <= k <= |buf| && AtCut(v, w, a, x, buf, k, z, kept)
    requires Good(Run(t, buf, i), buf) && !BadCut(buf, k)
    ensures Run(t, buf, i) == Run(w, buf, k) && Follows(w, buf, k, UpToLone)
    ensures Closes(buf, z) && k <= z ==> RunTo(t, buf, i, z) == RunTo(w, buf, k, z)
  {
    hide Run, RunTo, Sim, ModeAt, Good, LowAhead, Wf, Closes, InWord, Tracks;
    if a.gotHi != 0 {
      LoneRuns(a, buf, x, z, kept);
    } else {
      NothingToFlush(a);
    }
  }

  lemma {:induction false} ResumeFrom(t: Tok, buf: string, k: nat, u: Tok, pieces: seq<string>)
    requires Wf(t) && Wf(u) && Follows(t, buf, k, UpToLone) && Settled(t) && Sim(t, StartCall(u))
    requires k <= |buf| && buf != "" && Closing(buf[|buf| - 1])
    requires Good(Run(t, buf, k), buf) && CutsUp(buf, k, pieces) && CutSafely(buf, k, pieces)
    ensures Resumes(u, pieces, Conclude(Run(t, buf, k)).value)
    decreases |pieces|
  {
    hide Micro, TopOk, ParentsOk, Run, Rank, StateRank, ModeAt, LowAhead, Window, StepOk, Plain, Closing, RunTo, Tracks, Waits, Same,
         Closes, Good, Sim, Follows;
    PieceWindow(buf, k, pieces);
    var p := pieces[0];
    if |pieces| == 1 {
      assert Concat(pieces) == p + Concat(pieces[1..]) && Concat(pieces[1..]) == "";
      SimRun(t, StartCall(u), buf, k, p, 0);
      assert Good(Run(StartCall(u), p, 0), p);
      GoodMeans(Run(StartCall(u), p, 0), p);
    } else {
      CutLeavesRest(buf, k + |p|, pieces[1..]);
      var v, w, a, x := CutRun(t, StartCall(u), buf, k, k + |p|, p, 0, 0, UpToLone);
      CutIsSafe(t, buf, k, v, w, a, x, k + |p|, 0, UpToLone);
      if Complete(w) { AfterComplete(w, buf, k + |p|); }
      CallContinues(u, p, w, v);
      ResumeFrom(w, buf, k + |p|, AtEnd(v, 0).t, pieces[1..]);
    }
  }

  lemma GoodMeans(h: Halt, buf: string)
    ensures Good(h, buf) <==> Conclude(h).err == Success && h.off == |buf|
  {
  }

  /** A text that one call accepts whole, ending in a bracket or a quote, may be delivered
      in pieces, if no cut is a bad one: the tokener asks for more until the last piece, and
      returns the same value. */
  lemma Resumable(t: Tok, buf: string, pieces: seq<string>)
    requires Wf(t) && t.below == [] && t.top == RESET_LEVEL
    requires var r := ParseEx(t, buf); r.err == Success && r.off == |buf|
    requires buf != "" && Closing(buf[|buf| - 1])
    requires CutsUp(buf, 0, pieces) && CutSafely(buf, 0, pieces)
    ensures Resumes(t, pieces, ParseEx(t, buf).value)
  {
    hide Micro, Run;
    ResumeFrom(StartCall(t), buf, 0, t, pieces);
  }
}
