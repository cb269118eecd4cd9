/** A cut inside a string or a key: the tokener comes to the closing quote with the same
    bytes exactly if the cut is not a bad one. */
module CutsDecide {
  import opened JsonValue
  import opened Sequences
  import opened Tokener
  import opened Resume
  import opened TextScan
  import opened Cuts

  predicate InQuotes(m: Mode) { m.Quoted? || m.Escaped? || m.Unit? }

  /** The first closing quote at or behind k, the end of the text if there is none. */
  function CloseAt(buf: string, k: nat): (z: nat)
    requires k <= |buf|
    ensures k <= z <= |buf| && (z < |buf| ==> Closes(buf, z))
    decreases |buf| - k
  {
    if k == |buf| || Closes(buf, k) then k else CloseAt(buf, k + 1)
  }

  lemma {:induction false} CloseLater(buf: string, k: nat, x: nat)
    requires k <= |buf| && k <= x <= CloseAt(buf, k)
    ensures CloseAt(buf, x) == CloseAt(buf, k)
    decreases x - k
  {
    if k < x { CloseLater(buf, k + 1, x); }
  }

  // ------------------------------------------------------------ the way to the closing quote

  /** A step inside quotes, not at the closing one, stays inside. */
  lemma TextStep(t: Tok, buf: string, i: nat, kept: Kept)
    requires Wf(t) && InText(t.top.state) && i < |buf| && Follows(t, buf, i, kept) && Micro(t, buf, i).Next? && !Closes(buf, i)
    ensures var s := Micro(t, buf, i);
            && InText(s.t.top.state) && Wf(s.t) && s.n >= 1 && i + s.n <= CloseAt(buf, i) && CloseAt(buf, i + s.n) == CloseAt(buf, i)
            && Follows(s.t, buf, i + s.n, kept)
  {
    hide Micro, Plain, TopOk, ParentsOk, StateRank, Rank, ModeAt, LowAhead, RunTo, Run, StepOk, Wf, Waits, InWord;
    MicroFollows(t, buf, i, kept);
    RunStep(t, buf, i);
    StaysInText(t, buf, i);
    var s := Micro(t, buf, i);
    if s.n == 3 {
      OnlySurrogatesJump(t, buf, i);
      ModeAfterJump(t, buf, i, s.t, kept);
    }
    CloseLater(buf, i, i + s.n);
  }

  lemma StaysInText(t: Tok, buf: string, i: nat)
    requires Wf(t) && InText(t.top.state) && i < |buf| && Micro(t, buf, i).Next?
    requires (t.top.state == Str || t.top.state == Field) ==> buf[i] != t.quote
    ensures InText(Micro(t, buf, i).t.top.state)
  {
    hide Micro, Plain, ParentsOk, StateRank, Rank, StepOk, DecodeUnit, CString, Unescaped;
    TextCases(t, buf, i);
  }

  /** There is no closing quote in the two characters that are stepped over. */
  lemma ModeAfterJump(t: Tok, buf: string, i: nat, a: Tok, kept: Kept)
    requires Wf(t) && t.top.state == EscapeUnicode && Follows(t, buf, i, kept) && i + 3 <= |buf|
    requires Micro(t, buf, i) == Next(a, 3) && Follows(a, buf, i + 3, kept)
    ensures !Closes(buf, i) && !Closes(buf, i + 1) && !Closes(buf, i + 2)
  {
    hide Micro, Plain, TopOk, ParentsOk, StateRank, Rank, ModeAt, LowAhead, StepOk, Wf, Waits, InWord;
    HighStep(t, buf, i, a);
    QuoteIsQuote(t);
    TracksReplaced(t, buf, i, a, kept);
    ModeEscaped(buf, i + 1);
  }

  /** A run that is good comes to the closing quote. */
  lemma {:induction false} Reaches(t: Tok, buf: string, i: nat, kept: Kept)
    requires Wf(t) && InText(t.top.state) && Follows(t, buf, i, kept) && Good(Run(t, buf, i), buf)
    ensures var z := CloseAt(buf, i); z < |buf| && RunTo(t, buf, i, z).Some?
    decreases |buf| - i
  {
    hide Micro, Plain, TopOk, ParentsOk, StateRank, Rank, ModeAt, LowAhead, RunTo, Run, StepOk, Wf, Waits, Good, CloseAt, Closes,
         Tracks;
    TextGoesOn(t, buf, i);
    if CloseAt(buf, i) == i {
      StandsHere(t, buf, i);
    } else {
      NotClosed(buf, i);
      RunStep(t, buf, i);
      TextStep(t, buf, i, kept);
      var s := Micro(t, buf, i);
      Reaches(s.t, buf, i + s.n, kept);
      StepTo(t, buf, i, CloseAt(buf, i));
    }
  }

  lemma NotClosed(buf: string, i: nat)
    requires i < |buf| && CloseAt(buf, i) != i
    ensures !Closes(buf, i)
  {
  }

  // ------------------------------------------------------------ two tokeners that hold different bytes

  /** b is a inside the same string or key, with other bytes, and with the surrogate that a
      waits with or with none. */
  ghost predicate Beside(a: Tok, b: Tok) {
    && b == a.(pb := b.pb, gotHi := b.gotHi) && Wf(a) && Wf(b) && InText(a.top.state)
    && (b.gotHi == a.gotHi || (b.gotHi == 0 && a.top.state == EscapeUnicode))
  }

  /** b holds so many bytes more that a cannot catch up. */
  ghost predicate Ahead(a: Tok, b: Tok, buf: string, x: nat) {
    && Beside(a, b)
    && (if b.gotHi == a.gotHi then |b.pb| > |a.pb|
        else |b.pb| >= |a.pb| + 4 || (|b.pb| >= |a.pb| + 3 && LowAhead(buf, x - 2 - a.stPos)))
  }

  /** The same step, with different bytes. */
  ghost predicate StepsBeside(s: Step, r: Step, more: int) {
    && s.Next? && r.Next? && r.n == s.n && Beside(s.t, r.t) && s.t.gotHi == r.t.gotHi
    && |r.t.pb| - |s.t.pb| == more
  }

  lemma PlainStep(a: Tok, b: Tok, buf: string, x: nat)
    requires Beside(a, b) && a.top.state != EscapeUnicode && a.gotHi == b.gotHi && x < |buf|
    requires Micro(a, buf, x).Next? && ((a.top.state == Str || a.top.state == Field) ==> buf[x] != a.quote)
    ensures StepsBeside(Micro(a, buf, x), Micro(b, buf, x), |b.pb| - |a.pb|) && Micro(a, buf, x).n == 1
  {
    hide Plain, ParentsOk, StateRank, Rank, StepOk, Micro, StepField, StepString, StepEscape, StepsBeside;
    TextCases(a, buf, x);
    TextCases(b, buf, x);
    match a.top.state
    case Str => StringBeside(a, b, buf[x]);
    case Field => FieldBeside(a, b, buf[x]);
    case StrEscape => EscapeBeside(a, b, buf[x]);
  }

  lemma StringBeside(a: Tok, b: Tok, c: char)
    requires Beside(a, b) && a.top.state == Str && a.gotHi == b.gotHi && c != a.quote
    ensures StepsBeside(StepString(a, c), StepString(b, c), |b.pb| - |a.pb|) && StepString(a, c).n == 1
  {
    hide Plain, ParentsOk, StateRank, Rank, StepOk;
  }

  lemma FieldBeside(a: Tok, b: Tok, c: char)
    requires Beside(a, b) && a.top.state == Field && a.gotHi == b.gotHi && c != a.quote
    ensures StepsBeside(StepField(a, c), StepField(b, c), |b.pb| - |a.pb|) && StepField(a, c).n == 1
  {
    hide Plain, ParentsOk, StateRank, Rank, StepOk, CString;
  }

  lemma EscapeBeside(a: Tok, b: Tok, c: char)
    requires Beside(a, b) && a.top.state == StrEscape && a.gotHi == b.gotHi && StepEscape(a, c).Next?
    ensures StepsBeside(StepEscape(a, c), StepEscape(b, c), |b.pb| - |a.pb|) && StepEscape(a, c).n == 1
  {
    hide Plain, ParentsOk, StateRank, Rank, StepOk, Unescaped;
  }

  lemma DigitStep(a: Tok, b: Tok, buf: string, x: nat)
    requires Beside(a, b) && a.top.state == EscapeUnicode && a.stPos < 3 && x < |buf| && IsHex(buf[x])
    ensures var s, r := Micro(a, buf, x), Micro(b, buf, x);
            && s.Next? && s.n == 1 && r.Next? && r.n == 1 && Beside(s.t, r.t) && s.t.gotHi == a.gotHi && r.t.gotHi == b.gotHi
            && s.t.pb == a.pb && r.t.pb == b.pb && s.t.stPos == a.stPos + 1 && s.t.top.state == EscapeUnicode
  {
    hide Plain, ParentsOk, StateRank, Rank, StepOk, StepCodePoint, TopOk, HexVal;
    EarlyDigit(a, buf, x);
    EarlyDigit(b, buf, x);
  }

  /** The last digit, for two that wait with the same surrogate or none. */
  lemma SameUnit(a: Tok, b: Tok, buf: string, x: nat)
    requires Beside(a, b) && a.top.state == EscapeUnicode && a.stPos == 3 && x < |buf| && IsHex(buf[x])
    requires a.gotHi == b.gotHi && Micro(a, buf, x).Next?
    ensures StepsBeside(Micro(a, buf, x), Micro(b, buf, x), |b.pb| - |a.pb|)
  {
    hide Micro, Plain, ParentsOk, StateRank, Rank, StepOk, DecodeUnit, HexVal, TopOk, StepCodePoint, StepsBeside;
    FourthDigit(a, buf, x);
    FourthDigit(b, buf, x);
    SameCodePoint(Completed(a, buf[x]), Completed(b, buf[x]), buf, x);
  }

  lemma SameCodePoint(d: Tok, e: Tok, buf: string, x: nat)
    requires Beside(d, e) && d.top.state == EscapeUnicode && x < |buf| && d.gotHi == e.gotHi
    requires StepCodePoint(d, buf, x).Next?
    ensures StepsBeside(StepCodePoint(d, buf, x), StepCodePoint(e, buf, x), |e.pb| - |d.pb|)
  {
    hide Plain, ParentsOk, StateRank, Rank, StepOk, DecodeUnit;
  }

  /** The last digit of an escape that is no low surrogate: what a waits with is replaced. */
  lemma LoneUnit(a: Tok, b: Tok, buf: string, x: nat)
    requires Beside(a, b) && a.top.state == EscapeUnicode && a.stPos == 3 && x < |buf| && IsHex(buf[x])
    requires b.gotHi == 0 != a.gotHi && Micro(a, buf, x).Next? && !IsLow(a.ucs + HexVal(buf[x]))
    ensures StepsBeside(Micro(a, buf, x), Micro(b, buf, x), |b.pb| - |a.pb| - 3)
  {
    hide Micro, Plain, ParentsOk, StateRank, Rank, StepOk, DecodeUnit, HexVal, TopOk, StepCodePoint, StepsBeside, IsLow;
    FourthDigit(a, buf, x);
    FourthDigit(b, buf, x);
    LoneCodePoint(Completed(a, buf[x]), Completed(b, buf[x]), buf, x);
  }

  lemma LoneCodePoint(d: Tok, e: Tok, buf: string, x: nat)
    requires Beside(d, e) && d.top.state == EscapeUnicode && x < |buf| && e.gotHi == 0 != d.gotHi
    requires StepCodePoint(d, buf, x).Next? && !IsLow(d.ucs)
    ensures StepsBeside(StepCodePoint(d, buf, x), StepCodePoint(e, buf, x), |e.pb| - |d.pb| - 3)
  {
    hide Plain, ParentsOk, StateRank, Rank, StepOk, IsLow, DecodeUnit;
    LoneDecode(d.gotHi, d.ucs);
  }

  lemma LoneDecode(hi: nat, v: nat)
    requires hi != 0 && !IsLow(v)
    ensures var one, two := DecodeUnit(hi, v), DecodeUnit(0, v);
            one == if two.HighHalf? then HighHalf(REPLACEMENT + two.s, two.u) else Bytes(REPLACEMENT + two.s)
  {
    hide IsLow, IsHigh, Utf8;
  }

  /** b when it has read the `\u` of the next escape. */
  function StartsNext(b: Tok): Tok {
    b.(top := b.top.(state := EscapeUnicode, saved := b.top.state), gotHi := 0, ucs := 0, stPos := 0)
  }

  /** d completes a pair, and e has only the low surrogate. */
  ghost predicate PairSteps(d: Tok, e: Tok, s: Step, r: Step) {
    && s.Next? && r.Next? && r.n == 1 && r.t.gotHi == 0 && r.t.top.state == d.top.saved && |r.t.pb| == |e.pb| + 3
    && (s.n == 1 ==> Beside(s.t, r.t) && s.t.gotHi == 0 && |s.t.pb| <= |d.pb| + 4)
    && (s.n == 3 ==> s.t.pb == d.pb && r.t.quote == d.quote && Wf(r.t) && StartsNext(r.t) == s.t.(gotHi := 0, pb := r.t.pb))
  }

  /** The last digit of a low surrogate: for a it completes a pair. */
  lemma PairUnits(a: Tok, b: Tok, buf: string, x: nat)
    requires Beside(a, b) && a.top.state == EscapeUnicode && a.stPos == 3 && x < |buf| && IsHex(buf[x])
    requires b.gotHi == 0 != a.gotHi && Micro(a, buf, x).Next? && IsLow(a.ucs + HexVal(buf[x]))
    ensures PairSteps(a, b, Micro(a, buf, x), Micro(b, buf, x))
  {
    hide Micro, Plain, ParentsOk, StateRank, Rank, StepOk, DecodeUnit, HexVal, TopOk, StepCodePoint, IsLow;
    FourthDigit(a, buf, x);
    FourthDigit(b, buf, x);
    PairCodePoint(Completed(a, buf[x]), Completed(b, buf[x]), buf, x);
  }

  lemma PairCodePoint(d: Tok, e: Tok, buf: string, x: nat)
    requires Beside(d, e) && d.top.state == EscapeUnicode && x < |buf| && e.gotHi == 0 != d.gotHi
    requires StepCodePoint(d, buf, x).Next? && IsLow(d.ucs)
    ensures PairSteps(d, e, StepCodePoint(d, buf, x), StepCodePoint(e, buf, x))
  {
    hide Plain, ParentsOk, StateRank, Rank, StepOk, IsLow, DecodeUnit;
    LowUnit(d.gotHi, d.ucs);
    assert d.pb + "" == d.pb;
  }

  lemma LowUnit(hi: nat, v: nat)
    requires hi != 0 && IsLow(v)
    ensures var one, two := DecodeUnit(hi, v), DecodeUnit(0, v);
            && two == Bytes(REPLACEMENT)
            && (if one.HighHalf? then one.s == "" else |one.s| <= 4)
  {
    hide DecodePair;
    assert "" + REPLACEMENT == REPLACEMENT;
  }

  /** b, one digit short of a complete escape and behind it, reads the `\u` that a has
      stepped over. */
  lemma CatchUp(a: Tok, b: Tok, buf: string, x: nat, z: nat)
    requires Ahead(a, b, buf, x) && a.top.state == EscapeUnicode && a.stPos == 3 && Follows(a, buf, x, Exact)
    requires x < |buf| && IsHex(buf[x]) && buf[x] != '\0' && Micro(a, buf, x).Next? && Micro(a, buf, x).n == 3
    requires b.gotHi == 0 != a.gotHi && IsLow(a.ucs + HexVal(buf[x])) && Closes(buf, z) && x + 3 <= z < |buf|
    ensures x + 3 <= |buf|
    ensures var a1 := Micro(a, buf, x).t;
            var b1 := Micro(a, buf, x).t.(gotHi := 0, pb := Micro(b, buf, x).t.pb);
            Ahead(a1, b1, buf, x + 3) && RunTo(b, buf, x, z) == RunTo(b1, buf, x + 3, z)
  {
    hide Micro, Plain, TopOk, ParentsOk, StateRank, Rank, ModeAt, LowAhead, RunTo, Run, StepOk, Waits, InWord, HexVal, IsLow, Closes;
    MicroFollows(a, buf, x, Exact);
    var a1, b0 := Micro(a, buf, x).t, Micro(b, buf, x).t;
    HighStep(a, buf, x, a1);
    PairUnits(a, b, buf, x);
    TracksReplaced(a, buf, x, a1, Exact);
    StepTo(b, buf, x, z);
    SavedText(a);
    var c, f := ReadStart(b0, buf, x + 1, z);
    assert f == StartsNext(b0);
    FWaits(a1, f, b, a, buf, x);
  }

  lemma FWaits(a1: Tok, f: Tok, b: Tok, a: Tok, buf: string, x: nat)
    requires Ahead(a, b, buf, x) && b.gotHi == 0 != a.gotHi && |f.pb| == |b.pb| + 3 && a1.pb == a.pb
    requires f == a1.(gotHi := 0, pb := f.pb) && Wf(f) && Wf(a1) && a1.top.state == EscapeUnicode && a1.gotHi != 0
    ensures Ahead(a1, f, buf, x + 3)
  {
    hide TopOk, ParentsOk, LowAhead;
  }

  /** Once b is ahead it stays ahead up to the closing quote. */
  lemma {:induction false} StaysAhead(a: Tok, b: Tok, buf: string, x: nat) returns (a1: Tok, b1: Tok)
    requires Ahead(a, b, buf, x) && Follows(a, buf, x, Exact) && Good(Run(a, buf, x), buf)
    ensures var z := CloseAt(buf, x);
            z < |buf| && RunTo(a, buf, x, z) == Some(a1) && RunTo(b, buf, x, z) == Some(b1) && |b1.pb| > |a1.pb|
    decreases |buf| - x
  {
    hide Micro, Plain, TopOk, ParentsOk, StateRank, Rank, ModeAt, LowAhead, RunTo, Run, StepOk, Wf, InWord, Good, CloseAt, Closes,
         Tracks, HexVal, IsLow;
    TextGoesOn(a, buf, x);
    var z := CloseAt(buf, x);
    if z == x {
      StandsHere(a, buf, x);
      StandsHere(b, buf, x);
      a1, b1 := a, b;
      AtQuote(a, buf, x);
    } else {
      NotClosed(buf, x);
      RunStep(a, buf, x);
      TextStep(a, buf, x, Exact);
      Reaches(a, buf, x, Exact);
      var s := Micro(a, buf, x);
      StepTo(a, buf, x, z);
      var b2 := AheadStep(a, b, buf, x, z);
      a1, b1 := StaysAhead(s.t, b2, buf, x + s.n);
    }
  }

  lemma AtQuote(a: Tok, buf: string, x: nat)
    requires Follows(a, buf, x, Exact) && Closes(buf, x)
    ensures a.gotHi == 0 && a.top.state != EscapeUnicode
  {
    hide ModeAt;
  }

  /** One step of both, or several of b. */
  lemma AheadStep(a: Tok, b: Tok, buf: string, x: nat, z: nat) returns (b2: Tok)
    requires Wf(a) && Wf(b) && x < z < |buf| && Micro(a, buf, x).Next? && x + Micro(a, buf, x).n <= z
    requires Ahead(a, b, buf, x) && Follows(a, buf, x, Exact) && buf[x] != '\0' && !Closes(buf, x) && Closes(buf, z)
    ensures Wf(b2)
    ensures var s := Micro(a, buf, x);
            Ahead(s.t, b2, buf, x + s.n) && RunTo(b, buf, x, z) == RunTo(b2, buf, x + s.n, z)
  {
    hide Micro, Plain, TopOk, ParentsOk, StateRank, Rank, ModeAt, LowAhead, RunTo, Run, StepOk, Wf, InWord, Waits, HexVal, IsLow, Closes;
    var s := Micro(a, buf, x);
    RunStep(a, buf, x);
    MicroFollows(a, buf, x, Exact);
    if a.top.state != EscapeUnicode {
      NotWaiting(a, buf, x);
      NoQuote(a, buf, x);
      PlainStep(a, b, buf, x);
    } else {
      HexNotNul(a, buf, x);
      UnitDigits(buf, x);
      if a.stPos < 3 {
        DigitStep(a, b, buf, x);
      } else if a.gotHi == b.gotHi {
        SameUnit(a, b, buf, x);
      } else {
        UnitEnds(buf, x);
        LowAheadHere(buf, x);
        if !IsLow(a.ucs + HexVal(buf[x])) {
          LoneUnit(a, b, buf, x);
        } else {
          PairUnits(a, b, buf, x);
          if s.n == 3 { CatchUp(a, b, buf, x, z); }
        }
      }
    }
    if s.n == 3 && Micro(b, buf, x).n == 1 {
      b2 := s.t.(gotHi := 0, pb := Micro(b, buf, x).t.pb);
    } else {
      StepTo(b, buf, x, z);
      b2 := Micro(b, buf, x).t;
    }
  }

  lemma NotWaiting(a: Tok, buf: string, x: nat)
    requires Follows(a, buf, x, Exact) && a.top.state != EscapeUnicode && InText(a.top.state)
    ensures a.gotHi == 0
  {
    hide ModeAt;
  }

  lemma NoQuote(a: Tok, buf: string, x: nat)
    requires Follows(a, buf, x, Exact) && x < |buf| && !Closes(buf, x)
    ensures (a.top.state == Str || a.top.state == Field) ==> buf[x] != a.quote
  {
    hide ModeAt;
  }

  lemma LowAheadHere(buf: string, x: nat)
    requires 5 <= x < |buf| && EscapeEndsAt(buf, x + 1)
    ensures LowAhead(buf, x - 5) <==> IsLow(EscapeVal(buf, x + 1))
  {
    hide IsLow, EscapeVal;
  }

  // ------------------------------------------------------------ the theorem

  /** The text is cut at k, inside quotes: the first call asks for more, and the next one
      comes to the closing quote as the uncut call does, with the same bytes in its buffer. */
  ghost predicate TextSurvives(t: Tok, buf: string, k: nat)
    requires Wf(t) && k <= |buf|
  {
    var r := ParseEx(t, buf[..k]);
    var z := CloseAt(buf, k);
    && r.err == Continue && r.off == k && Wf(r.t)
    && var whole := RunTo(StartCall(t), buf, 0, z);
       var rest := RunTo(StartCall(r.t), buf[k..], 0, z - k);
       whole.Some? && rest.Some? && SameText(whole.value, rest.value)
  }

  predicate SameText(t: Tok, u: Tok) { u.below == t.below && u.top == t.top && u.pb == t.pb }

  /** Inside quotes the two calls stay alike whatever happens later. */
  lemma {:induction false} SimText(t: Tok, u: Tok, buf: string, i: nat, p: string, j: nat, kept: Kept) returns (v: Tok)
    requires Wf(t) && Wf(u) && Sim(t, u) && InText(t.top.state) && Follows(t, buf, i, kept)
    requires Window(buf, i, p, j) && i + |p| - j == |buf|
    requires RunTo(t, buf, i, CloseAt(buf, i)).Some?
    ensures RunTo(u, p, j, j + CloseAt(buf, i) - i) == Some(v) && Sim(RunTo(t, buf, i, CloseAt(buf, i)).value, v)
    decreases |buf| - i
  {
    hide Micro, Plain, TopOk, ParentsOk, StateRank, Rank, ModeAt, LowAhead, StepOk, Wf, Waits, InWord, Closes, Tracks, Sim;
    var z := CloseAt(buf, i);
    if z == i {
      v := u;
    } else {
      NotClosed(buf, i);
      assert p[j] == buf[i];
      SimStep(t, u, buf, i, p, j);
      TextDoesNotRedo(t, buf, i);
      TextStep(t, buf, i, kept);
      RunStep(u, p, j);
      var s := Micro(t, buf, i);
      v := SimText(s.t, Micro(u, p, j).t, buf, i + s.n, p, j + s.n, kept);
    }
  }

  lemma RestWindow(buf: string, k: nat)
    requires k <= |buf|
    ensures Window(buf, 0, buf[..k], 0) && Window(buf, k, buf[k..], 0)
  {
  }

  lemma TracksText(w: Tok, m: Mode)
    requires Tracks(w, m) && InQuotes(m)
    ensures InText(w.top.state) && !Complete(w)
  {
  }

  lemma SimSameText(t: Tok, u: Tok)
    requires Sim(t, u)
    ensures SameText(t, u)
  {
  }

  lemma FreshFollows(t: Tok, buf: string)
    requires Wf(t) && t.top == RESET_LEVEL
    ensures Follows(StartCall(t), buf, 0, Exact) && Settled(StartCall(t)) && Sim(StartCall(t), StartCall(t))
  {
  }

  lemma StartWf(t: Tok)
    requires Wf(t)
    ensures Wf(StartCall(t))
  {
    hide TopOk, ParentsOk;
  }

  lemma AtCutText(v: Tok, w: Tok, a: Tok, x: nat, buf: string, k: nat, z: nat)
    requires k <= |buf| && InQuotes(ModeAt(buf, k)) && AtCut(v, w, a, x, buf, k, z, Exact)
    ensures Wf(w) && Sim(w, StartCall(AtEnd(v, 0).t)) && Settled(w)
    ensures InText(w.top.state) && !Complete(w) && Follows(w, buf, k, Lost)
  {
    hide Sim, Same, ModeAt, Wf, Run, RunTo, InQuotes, Complete;
    TracksText(w, ModeAt(buf, k));
  }

  /** At a bad cut the tokener that goes on is ahead of the other one at the closing quote. */
  lemma BadCutAhead(t: Tok, buf: string, v: Tok, w: Tok, a: Tok, x: nat, k: nat) returns (a1: Tok, b1: Tok)
    requires k <= |buf| && BadCut(buf, k) && !BehindStart(ModeAt(buf, k))
    requires var z := CloseAt(buf, k); AtCut(v, w, a, x, buf, k, z, Exact) && Same(t, buf, 0, a, x, z)
    requires Good(Run(t, buf, 0), buf)
    ensures var z := CloseAt(buf, k);
            RunTo(t, buf, 0, z) == Some(a1) && RunTo(w, buf, k, z) == Some(b1) && |b1.pb| > |a1.pb|
  {
    hide Micro, Plain, TopOk, ParentsOk, StateRank, Rank, ModeAt, RunTo, Run, StepOk, InWord, Good, CloseAt, EscapeVal, EscapeEndsAt,
         IsLow, Closes, Tracks, Sim;
    var b := Flushed(a);
    FlushedWf(a);
    assert Ahead(a, b, buf, x);
    CloseLater(buf, k, x);
    a1, b1 := StaysAhead(a, b, buf, x);
  }

  /** Cut anywhere but right behind the start of an escape. */
  lemma OtherCut(t: Tok, buf: string, k: nat)
    requires Wf(t) && t.below == [] && t.top == RESET_LEVEL && k < |buf| && InQuotes(ModeAt(buf, k))
    requires Good(Run(StartCall(t), buf, 0), buf) && !BehindStart(ModeAt(buf, k))
    ensures TextSurvives(t, buf, k) <==> !BadCut(buf, k)
  {
    hide Micro, Plain, TopOk, ParentsOk, StateRank, Rank, ModeAt, LowAhead, RunTo, Run, StepOk, Wf, Waits, InWord, Good, CloseAt,
         Closes, Tracks, Sim, Same, ParseEx, Window, BehindStart, InQuotes, Complete, BadCut, Follows, AtCut;
    var t0 := StartCall(t);
    FreshFollows(t, buf);
    StartWf(t);
    RestWindow(buf, k);
    var z := CloseAt(buf, k);
    var v, w, a, x := CutRun(t0, t0, buf, 0, k, buf[..k], 0, z, Exact);
    AtCutText(v, w, a, x, buf, k, z);
    CallContinues(t, buf[..k], w, v);
    StartWf(AtEnd(v, 0).t);
    if BadCut(buf, k) {
      var a1, b1 := BadCutAhead(t0, buf, v, w, a, x, k);
      var v1 := SimText(w, StartCall(AtEnd(v, 0).t), buf, k, buf[k..], 0, Lost);
      SimSameText(b1, v1);
    } else {
      CutIsSafe(t0, buf, 0, v, w, a, x, k, z, Exact);
      Reaches(w, buf, k, UpToLone);
      var v1 := SimText(w, StartCall(AtEnd(v, 0).t), buf, k, buf[k..], 0, Lost);
      SimSameText(RunTo(w, buf, k, z).value, v1);
    }
  }

  // ------------------------------------------------------------ right behind the start of an escape

  /** A call that has read the `\u` behind a surrogate as the last thing of its piece. */
  ghost predicate Stranded(h: Halt, off: nat) {
    && h.err == Continue && h.off == off && !h.nul && Wf(h.t)
    && h.t.top.state == EscapeUnicode && h.t.stPos == 4
  }

  lemma HighOut(u: Tok, p: string, j: nat)
    requires Wf(u) && u.top.state == EscapeUnicode && u.stPos == 3 && j + 3 == |p| && IsHex(p[j])
    requires EscapeStartsAt(p, j + 1) && DecodeUnit(u.gotHi, u.ucs + HexVal(p[j])).HighHalf?
    ensures Stranded(Run(u, p, j), |p|)
  {
    hide Plain, ParentsOk, TopOk, StateRank, StepOk, DecodeUnit, HexVal, Micro, Run;
    FourthDigit(u, p, j);
    RunStep(u, p, j);
  }

  /** A step that leads right behind the start has come over the escape. */
  lemma OnlyJumpsThere(t: Tok, buf: string, i: nat, k: nat)
    requires Wf(t) && Follows(t, buf, i, Exact) && i < k <= |buf| && BehindStart(ModeAt(buf, k))
    ensures var s := Micro(t, buf, i); s.Next? ==> i + s.n < k || (i + s.n == k && s.n == 3)
  {
    hide Micro, Plain, TopOk, ParentsOk, StateRank, Rank, ModeAt, LowAhead, StepOk, InWord;
    MicroFollows(t, buf, i, Exact);
    var s := Micro(t, buf, i);
    UnitDigits(buf, k);
    if s.Next? && s.n == 3 {
      OnlySurrogatesJump(t, buf, i);
      HighStep(t, buf, i, s.t);
      QuoteIsQuote(t);
      TracksReplaced(t, buf, i, s.t, Exact);
      ModeEscaped(buf, i + 1);
    } else if s.Next? && i + 1 == k {
      NoSurrogateYet(t, buf, i);
    }
  }

  lemma NoSurrogateYet(t: Tok, buf: string, i: nat)
    requires Wf(t) && i < |buf| && Micro(t, buf, i).Next? && Micro(t, buf, i).n == 1
    requires t.top.state != EscapeUnicode ==> t.gotHi == 0
    ensures var u := Micro(t, buf, i).t; u.top.state == EscapeUnicode && u.stPos == 0 ==> u.gotHi == 0
  {
    hide TopOk, ParentsOk, StateRank, StepOk, DecodeUnit, HexVal;
  }

  lemma {:induction false} HighCutRun(t: Tok, u: Tok, buf: string, i: nat, k: nat, p: string, j: nat)
    requires Wf(t) && Wf(u) && Sim(t, u) && Follows(t, buf, i, Exact)
    requires i < k < |buf| && Window(buf, i, p, j) && k - i == |p| - j
    requires Good(Run(t, buf, i), buf) && BehindStart(ModeAt(buf, k))
    ensures Stranded(Run(u, p, j), |p|)
    decreases |buf| - i, Rank(t)
  {
    hide Micro, Plain, TopOk, ParentsOk, StateRank, Rank, ModeAt, LowAhead, Sim, Run, RunTo, StepOk, Waits, InWord, Good, Stranded;
    GoesOn(t, buf, i);
    RunStep(t, buf, i);
    MicroFollows(t, buf, i, Exact);
    OnlyJumpsThere(t, buf, i, k);
    var s := Micro(t, buf, i);
    if s.Next? && s.n > 1 { OnlySurrogatesJump(t, buf, i); HexNotNul(t, buf, i); }
    if s.Next? && i + s.n == k {
      HighStep(t, buf, i, s.t);
      SimFields(t, u);
      assert p[j] == buf[i] && p[j + 1] == buf[i + 1] && p[j + 2] == buf[i + 2];
      assert HexVal(buf[i]) * Shift(3) == HexVal(buf[i]);
      HighOut(u, p, j);
    } else {
      var u1 := CutStep(t, u, buf, i, k, p, j, Exact);
      HighCutRun(s.t, u1, buf, if s.Redo? then i else i + s.n, k, p, if s.Redo? then j else j + s.n);
    }
  }

  /** Cut right behind the `\u` of the escape behind a surrogate that waits, a text that one
      call accepts leads to a shift by a negative amount. */
  lemma CutBehindStart(t: Tok, buf: string, k: nat)
    requires Wf(t) && t.below == [] && t.top == RESET_LEVEL && k < |buf| && BehindStart(ModeAt(buf, k))
    requires Good(Run(StartCall(t), buf, 0), buf)
    ensures var r := ParseEx(t, buf[..k]);
            r.err == Continue && r.off == k && Wf(r.t) && ParseEx(r.t, buf[k..]).err == Undefined
    ensures !TextSurvives(t, buf, k)
  {
    hide Micro, Plain, TopOk, ParentsOk, StateRank, Rank, ModeAt, LowAhead, RunTo, Run, StepOk, Wf, Waits, InWord, Good, CloseAt, Sim,
         Window, Conclude, ParseEx;
    FreshFollows(t, buf);
    StartWf(t);
    RestWindow(buf, k);
    var t0 := StartCall(t);
    if k == 0 { ModeAtStart(buf); }
    HighCutRun(t0, t0, buf, 0, k, buf[..k], 0);
    var h := Run(t0, buf[..k], 0);
    StrandedCall(t, buf[..k], h);
    StartWf(h.t);
    DigitBehindStart(t0, buf, 0, k);
    StrandedNext(h.t, buf[k..], CloseAt(buf, k) - k);
    NotClosedInUnit(buf, k);
  }

  lemma ModeAtStart(buf: string)
    ensures ModeAt(buf, 0) == Outside
  {
  }

  lemma NotClosedInUnit(buf: string, k: nat)
    requires k < |buf| && ModeAt(buf, k).Unit?
    ensures CloseAt(buf, k) > k
  {
  }

  lemma StrandedCall(t: Tok, p: string, h: Halt)
    requires Wf(t) && h == Run(StartCall(t), p, 0) && Stranded(h, |p|)
    ensures ParseEx(t, p) == Result(h.t, |p|, Continue, JNull)
  {
    hide Run, Wf;
  }

  lemma StrandedNext(u: Tok, p: string, z: nat)
    requires Wf(u) && u.top.state == EscapeUnicode && u.stPos == 4 && p != "" && IsHex(p[0])
    ensures ParseEx(u, p).err == Undefined
    ensures 0 < z <= |p| ==> RunTo(StartCall(u), p, 0, z) == None
  {
    hide TopOk, ParentsOk, StateRank, StepOk, Plain, StepCodePoint, Run, Micro;
    StartWf(u);
    TextCases(StartCall(u), p, 0);
    RunOut(StartCall(u), p, 0);
  }

  /** A hexadecimal digit follows. */
  lemma {:induction false} DigitBehindStart(t: Tok, buf: string, i: nat, k: nat)
    requires Wf(t) && Follows(t, buf, i, Exact) && i <= k < |buf|
    requires Good(Run(t, buf, i), buf) && BehindStart(ModeAt(buf, k))
    ensures IsHex(buf[k])
    decreases |buf| - i, Rank(t)
  {
    hide Micro, Plain, TopOk, ParentsOk, StateRank, Rank, ModeAt, LowAhead, Run, StepOk, Waits, InWord, Good;
    if i == k {
      TextGoesOn(t, buf, i);
      HexNotNul(t, buf, i);
    } else {
      GoesOn(t, buf, i);
      RunStep(t, buf, i);
      MicroFollows(t, buf, i, Exact);
      OnlyJumpsThere(t, buf, i, k);
      var s := Micro(t, buf, i);
      if s.Next? && s.n > 1 { OnlySurrogatesJump(t, buf, i); HexNotNul(t, buf, i); }
      DigitBehindStart(s.t, buf, if s.Redo? then i else i + s.n, k);
    }
  }

  /** A text that one call accepts, cut inside a string or a key: whatever the rest of the
      document is, the tokener comes to the closing quote with the same bytes if and only if
      the cut is not a bad one. */
  lemma CutDecides(t: Tok, buf: string, k: nat)
    requires Wf(t) && t.below == [] && t.top == RESET_LEVEL
    requires var r := ParseEx(t, buf); r.err == Success && r.off == |buf|
    requires k < |buf| && InQuotes(ModeAt(buf, k))
    ensures TextSurvives(t, buf, k) <==> !BadCut(buf, k)
  {
    hide Run, ModeAt, TextSurvives, LowAhead;
    if BehindStart(ModeAt(buf, k)) {
      CutBehindStart(t, buf, k);
    } else {
      OtherCut(t, buf, k);
    }
  }
}
