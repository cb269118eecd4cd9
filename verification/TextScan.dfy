/** A lexer for JSON texts that knows nothing of values: which characters are inside
    quotes, which escapes are real, and which surrogate waits for its other half.  It says
    where a text must not be kept, and the tokener is proved to follow it. */
module TextScan {
  import opened Tokener

  /** What comes before a position.  hi is the high surrogate that the escape right before
      this escape left waiting, 0 if there is none. */
  datatype Mode =
    | Outside | Slash | LineComment | BlockComment | Star
    | Quoted(quote: char, hi: nat)
    | Escaped(quote: char, hi: nat)
    | Unit(quote: char, n: nat, v: nat, hi: nat)

  function Hi(m: Mode): nat {
    if m.Quoted? || m.Escaped? || m.Unit? then m.hi else 0
  }

  function WaitingAfter(hi: nat, v: nat): nat {
    var d := DecodeUnit(hi, v);
    if d.HighHalf? then d.u else 0
  }

  function ScanStep(m: Mode, c: char): Mode {
    match m
    case Outside => if c == '/' then Slash else if c == '"' || c == '\'' then Quoted(c, 0) else Outside
    case Slash => if c == '*' then BlockComment else if c == '/' then LineComment else Outside
    case LineComment => if c == '\n' then Outside else LineComment
    case BlockComment => if c == '*' then Star else BlockComment
    case Star => if c == '/' then Outside else BlockComment
    case Quoted(q, hi) => if c == q then Outside else if c == '\\' then Escaped(q, hi) else Quoted(q, 0)
    case Escaped(q, hi) => if c == 'u' then Unit(q, 0, 0, hi) else Quoted(q, 0)
    case Unit(q, n, v, hi) =>
      if !IsHex(c) then Quoted(q, 0)
      else if n < 3 then Unit(q, n + 1, v + HexVal(c) * Shift(n), hi)
      else Quoted(q, WaitingAfter(hi, v + HexVal(c)))
  }

  function ModeAt(buf: string, k: nat): Mode
    requires k <= |buf|
  {
    if k == 0 then Outside else ScanStep(ModeAt(buf, k - 1), buf[k - 1])
  }

  // ------------------------------------------------------------ escapes in the text

  predicate EscapeStartsAt(buf: string, e: int) {
    0 <= e && e + 1 < |buf| && buf[e] == '\\' && buf[e + 1] == 'u'
  }

  /** A `\u` escape ends right before position e. */
  predicate EscapeEndsAt(buf: string, e: int) {
    6 <= e <= |buf| && buf[e - 6] == '\\' && buf[e - 5] == 'u' && forall k | e - 4 <= k < e :: IsHex(buf[k])
  }

  /** The value of n hex digits at s, the first of four counting 0x1000. */
  function PartVal(buf: string, s: nat, n: nat): nat
    requires n <= 4 && s + n <= |buf| && forall k | s <= k < s + n :: IsHex(buf[k])
  {
    if n == 0 then 0 else PartVal(buf, s, n - 1) + HexVal(buf[s + n - 1]) * Shift(n - 1)
  }

  function EscapeVal(buf: string, e: int): nat
    requires EscapeEndsAt(buf, e)
  {
    PartVal(buf, e - 4, 4)
  }

  /** A whole escape of a low surrogate stands at e. */
  predicate LowAhead(buf: string, e: int) {
    EscapeStartsAt(buf, e) && EscapeEndsAt(buf, e + 6) && IsLow(EscapeVal(buf, e + 6))
  }

  /** Where the escape starts that position k is in, or in front of. */
  function EscapeStart(m: Mode, k: int): int {
    match m
    case Escaped(_, _) => k - 1
    case Unit(_, n, _, _) => k - 2 - n
    case _ => k
  }

  /** Behind a surrogate that waits: the text is cut right after the `\u` of the next
      escape, or anywhere before the end of an escape that is its other half. */
  predicate BadCut(buf: string, k: nat)
    requires k <= |buf|
  {
    var m := ModeAt(buf, k);
    Hi(m) != 0 && ((m.Unit? && m.n == 0) || LowAhead(buf, EscapeStart(m, k)))
  }

  lemma BackslashBehind(buf: string, k: nat)
    requires k <= |buf| && ModeAt(buf, k).Escaped?
    ensures k >= 1 && buf[k - 1] == '\\'
  {
  }

  lemma {:induction false} UnitDigits(buf: string, k: nat)
    requires k <= |buf| && ModeAt(buf, k).Unit?
    ensures var m := ModeAt(buf, k);
            && m.n <= 3 && EscapeStartsAt(buf, k - 2 - m.n)
            && (forall j | k - m.n <= j < k :: IsHex(buf[j]))
            && m.v == PartVal(buf, k - m.n, m.n)
    decreases k
  {
    hide WaitingAfter;
    var before := ModeAt(buf, k - 1);
    if before.Unit? {
      UnitDigits(buf, k - 1);
    } else {
      BackslashBehind(buf, k - 1);
    }
  }

  /** The fourth digit completes the escape. */
  lemma UnitEnds(buf: string, k: nat)
    requires k < |buf| && ModeAt(buf, k).Unit? && ModeAt(buf, k).n == 3 && IsHex(buf[k])
    ensures EscapeEndsAt(buf, k + 1) && EscapeVal(buf, k + 1) == ModeAt(buf, k).v + HexVal(buf[k])
  {
    hide ModeAt;
    UnitDigits(buf, k);
    assert PartVal(buf, k - 3, 4) == PartVal(buf, k - 3, 3) + HexVal(buf[k]) * Shift(3);
  }

  lemma ModeNext(buf: string, k: nat)
    requires k < |buf|
    ensures ModeAt(buf, k + 1) == ScanStep(ModeAt(buf, k), buf[k])
  {
  }

  // ------------------------------------------------------------ the tokener follows the lexer

  /** In the middle of a keyword the buffer holds what has been read of it. */
  predicate InWord(t: Tok) {
    && (t.top.state == Null ==>
          |t.pb| == t.stPos <= 4 && (t.stPos == 4 ==> Matches("null", 4, t.pb, !t.cfg.strict)))
    && (t.top.state == Boolean ==>
          |t.pb| == t.stPos <= 5 && (t.stPos == 5 ==> Matches("false", 5, t.pb, !t.cfg.strict)))
  }

  /** The state of the tokener fits what comes before. */
  predicate Tracks(t: Tok, m: Mode) {
    match t.top.state
    case Str => m.Quoted? && m.quote == t.quote
    case Field => m.Quoted? && m.quote == t.quote
    case StrEscape => m.Escaped? && m.quote == t.quote
    case EscapeUnicode => m.Unit? && m.quote == t.quote && m.n == t.stPos && m.v == t.ucs
    case CommentStart => m.Slash?
    case Comment => m.BlockComment?
    case CommentEol => m.LineComment?
    case CommentEnd => m.Star?
    case _ => m.Outside?
  }

  /** What the tokener still knows of a surrogate that waits: everything that matters in one
      call; everything but those that will turn out to be alone; perhaps nothing. */
  datatype Kept = Exact | UpToLone | Lost

  predicate Waits(gotHi: nat, m: Mode, buf: string, i: nat, kept: Kept) {
    if gotHi != 0 then m.Unit? && gotHi == m.hi
    else
      Hi(m) != 0 ==>
        match kept
        case Exact => !EscapeStartsAt(buf, EscapeStart(m, i))
        case UpToLone => !LowAhead(buf, EscapeStart(m, i))
        case Lost => true
  }

  ghost predicate Follows(t: Tok, buf: string, i: nat, kept: Kept) {
    i <= |buf| && Tracks(t, ModeAt(buf, i)) && InWord(t) && Waits(t.gotHi, ModeAt(buf, i), buf, i, kept)
  }

  /** The step s at i, and only a waiting surrogate steps over characters. */
  ghost predicate StepFollows(s: Step, buf: string, i: nat, kept: Kept) {
    match s
    case Redo(u) => Follows(u, buf, i, kept)
    case Next(u, n) =>
      && i + n <= |buf| && Settled(u)
      && (n == 1 || (n == 3 && u.top.state == EscapeUnicode && u.gotHi != 0 && u.stPos == 0 && EscapeStartsAt(buf, i + 1)))
      && Follows(u, buf, i + n, kept)
    case Out(_, _, err) => err != Undefined
  }

  /** A surrogate that was taken out of account at a cut would not have been used. */
  lemma ForgottenIsLone(t: Tok, buf: string, i: nat, kept: Kept)
    requires t.top.state == EscapeUnicode && Follows(t, buf, i, kept) && i < |buf| && t.stPos == 3 && IsHex(buf[i])
    ensures EscapeEndsAt(buf, i + 1) && ModeAt(buf, i).Unit?
    ensures var v := EscapeVal(buf, i + 1);
            v == t.ucs + HexVal(buf[i]) && (t.gotHi == ModeAt(buf, i).hi || (t.gotHi == 0 && (kept.Lost? || !IsLow(v))))
  {
    hide EscapeVal, IsLow, ModeAt;
    UnitDigits(buf, i);
    UnitEnds(buf, i);
    assert EscapeStart(ModeAt(buf, i), i) == i - 5;
  }

  lemma SameWaiting(gotHi: nat, hi: nat, v: nat)
    requires gotHi == hi || gotHi == 0
    ensures var d := DecodeUnit(gotHi, v);
            && (d.HighHalf? ==> d.u == WaitingAfter(hi, v))
            && (d.Bytes? && (gotHi == hi || !IsLow(v)) ==> WaitingAfter(hi, v) == 0)
  {
  }

  /** Two characters further: the `\u` of the next escape. */
  lemma ModeAfterHigh(buf: string, i: nat)
    requires i < |buf| && ModeAt(buf, i + 1).Quoted? && EscapeStartsAt(buf, i + 1)
    requires ModeAt(buf, i + 1).quote == '"' || ModeAt(buf, i + 1).quote == '\''
    ensures ModeAt(buf, i + 3) == Unit(ModeAt(buf, i + 1).quote, 0, 0, ModeAt(buf, i + 1).hi)
  {
    hide ModeAt, DecodeUnit, WaitingAfter, HexVal;
    ModeNext(buf, i + 1);
    ModeNext(buf, i + 2);
  }

  lemma CodePointFollows(d: Tok, buf: string, i: nat, hi: nat, kept: Kept)
    requires Wf(d) && d.top.state == EscapeUnicode && i < |buf|
    requires ModeAt(buf, i + 1) == Quoted(d.quote, WaitingAfter(hi, d.ucs))
    requires d.gotHi == hi || (d.gotHi == 0 && (kept.Lost? || !IsLow(d.ucs)))
    ensures StepFollows(StepCodePoint(d, buf, i), buf, i, kept)
  {
    hide ParentsOk, StateRank, ModeAt, DecodeUnit, WaitingAfter, IsLow, Wf, StepOk;
    SavedText(d);
    SameWaiting(d.gotHi, hi, d.ucs);
    assert EscapeAhead(buf, i) == EscapeStartsAt(buf, i + 1);
    if EscapeStartsAt(buf, i + 1) { ModeAfterHigh(buf, i); }
  }

  lemma SavedText(d: Tok)
    requires Wf(d) && d.top.state == EscapeUnicode
    ensures (d.quote == '"' || d.quote == '\'') && (d.top.saved == Str || d.top.saved == Field)
  {
  }

  lemma UnicodeFollows(t: Tok, buf: string, i: nat, kept: Kept)
    requires Wf(t) && t.top.state == EscapeUnicode && i < |buf| && Follows(t, buf, i, kept)
    ensures StepFollows(StepUnicode(t, buf, i), buf, i, kept) && !StepUnicode(t, buf, i).Redo?
  {
    hide TopOk, ParentsOk, StateRank, StepCodePoint, LowAhead, WaitingAfter, IsLow, StepOk, EscapeStartsAt, ModeAt, HexVal, EscapeVal, PartVal;
    UnitDigits(buf, i);
    var m := ModeAt(buf, i);
    if IsHex(buf[i]) {
      ModeNext(buf, i);
      if t.stPos == 3 {
        ForgottenIsLone(t, buf, i, kept);
        assert HexVal(buf[i]) * Shift(3) == HexVal(buf[i]);
        CodePointFollows(Completed(t, buf[i]), buf, i, m.hi, kept);
        CodePointStep(Completed(t, buf[i]), buf, i);
      }
    }
  }

  lemma CodePointStep(d: Tok, buf: string, i: nat)
    requires Wf(d) && d.top.state == EscapeUnicode && i < |buf|
    ensures !StepCodePoint(d, buf, i).Redo?
  {
  }

  lemma LetterU()
    ensures Unescaped('u') == ""
  {
  }

  /** The `u` of an escape. */
  lemma EscapeUFollows(t: Tok, buf: string, i: nat, kept: Kept)
    requires Wf(t) && t.top.state == StrEscape && i < |buf| && buf[i] == 'u' && Follows(t, buf, i, kept)
    ensures StepFollows(StepEscape(t, buf[i]), buf, i, kept)
  {
    hide TopOk, ParentsOk, StateRank, StepOk, LowAhead, ModeAt, HexVal, Unescaped, DecodeUnit, Matches;
    BackslashBehind(buf, i);
    ModeNext(buf, i);
    LetterU();
  }

  lemma EscapeFollows(t: Tok, buf: string, i: nat, kept: Kept)
    requires Wf(t) && t.top.state == StrEscape && i < |buf| && buf[i] != 'u' && Follows(t, buf, i, kept)
    ensures StepFollows(StepEscape(t, buf[i]), buf, i, kept)
  {
    hide ParentsOk, StateRank, StepOk, LowAhead, ModeAt, HexVal, Unescaped, DecodeUnit, Matches, EscapeStartsAt;
    ModeNext(buf, i);
  }

  lemma StringFollows(t: Tok, buf: string, i: nat, kept: Kept)
    requires Wf(t) && t.top.state == Str && i < |buf| && Follows(t, buf, i, kept)
    ensures StepFollows(StepString(t, buf[i]), buf, i, kept)
  {
    hide TopOk, ParentsOk, StateRank, StepOk, LowAhead, WaitingAfter, Plain, ModeAt, HexVal;
    ModeNext(buf, i);
  }

  lemma FieldFollows(t: Tok, buf: string, i: nat, kept: Kept)
    requires Wf(t) && t.top.state == Field && i < |buf| && Follows(t, buf, i, kept)
    ensures StepFollows(StepField(t, buf[i]), buf, i, kept)
  {
    hide TopOk, ParentsOk, StateRank, StepOk, LowAhead, WaitingAfter, Plain, CString, ModeAt, HexVal;
    ModeNext(buf, i);
  }

  lemma CommentStartFollows(t: Tok, buf: string, i: nat, kept: Kept)
    requires Wf(t) && t.top.state == CommentStart && i < |buf| && Follows(t, buf, i, kept)
    ensures StepFollows(StepCommentStart(t, buf[i]), buf, i, kept)
  {
    hide TopOk, ParentsOk, StateRank, StepOk, LowAhead, WaitingAfter, Plain, ModeAt, HexVal, Matches, InText;
    ModeNext(buf, i);
  }

  lemma InCommentFollows(t: Tok, buf: string, i: nat, kept: Kept)
    requires Wf(t) && t.top.state == Comment && i < |buf| && Follows(t, buf, i, kept)
    ensures StepFollows(StepInComment(t, buf[i]), buf, i, kept)
  {
    hide TopOk, ParentsOk, StateRank, StepOk, LowAhead, WaitingAfter, Plain, ModeAt, HexVal, Matches, InText;
    ModeNext(buf, i);
  }

  lemma CommentEolFollows(t: Tok, buf: string, i: nat, kept: Kept)
    requires Wf(t) && t.top.state == CommentEol && i < |buf| && Follows(t, buf, i, kept)
    ensures StepFollows(StepCommentEol(t, buf[i]), buf, i, kept)
  {
    hide TopOk, ParentsOk, StateRank, StepOk, LowAhead, WaitingAfter, Plain, ModeAt, HexVal, Matches, InText;
    ModeNext(buf, i);
  }

  lemma CommentEndFollows(t: Tok, buf: string, i: nat, kept: Kept)
    requires Wf(t) && t.top.state == CommentEnd && i < |buf| && Follows(t, buf, i, kept)
    ensures StepFollows(StepCommentEnd(t, buf[i]), buf, i, kept)
  {
    hide TopOk, ParentsOk, StateRank, StepOk, LowAhead, WaitingAfter, Plain, ModeAt, HexVal, Matches, InText;
    ModeNext(buf, i);
  }

  /** Outside quotes and comments: where a step leads, by the character. */
  ghost predicate OutsideStep(s: Step, c: char) {
    match s
    case Redo(u) => Elsewhere(u)
    case Next(u, n) =>
      && n == 1 && Settled(u)
      && (if c == '/' then u.top.state.CommentStart? && u.gotHi == 0
          else if c == '"' || c == '\'' then (u.top.state.Str? || u.top.state.Field?) && u.quote == c && u.gotHi == 0
          else Elsewhere(u))
    case Out(_, _, err) => err != Undefined
  }

  /** Outside quotes and comments. */
  predicate Elsewhere(t: Tok) {
    !InText(t.top.state) && !IsCommentState(t.top.state) && t.gotHi == 0 && InWord(t)
  }

  lemma MatchesLonger(word: string, n: nat, pb: string, c: char, fold: bool)
    requires n <= |word| && Matches(word, n, pb, fold)
    ensures Matches(word, n, pb + [c], fold)
  {
  }

  lemma NullSteps(t: Tok, c: char)
    requires Wf(t) && t.top.state == Null && Elsewhere(t)
    ensures OutsideStep(StepNull(t, c), c)
  {
    hide TopOk, ParentsOk, StateRank, StepOk, Plain;
    var pb := t.pb + [c];
    if t.stPos < 4 && (c == '/' || c == '"' || c == '\'') {
      assert pb[t.stPos] == c;
      assert !Matches("null", t.stPos + 1, pb, !t.cfg.strict);
    }
  }

  lemma BooleanSteps(t: Tok, c: char)
    requires Wf(t) && t.top.state == Boolean && Elsewhere(t)
    ensures OutsideStep(StepBoolean(t, c), c)
  {
    hide TopOk, ParentsOk, StateRank, StepOk, Plain, Matches;
    var pb, fold := t.pb + [c], !t.cfg.strict;
    if t.stPos == 5 {
      FalseIsNotTrue(t.pb, c, fold);
    } else if c == '/' || c == '"' || c == '\'' {
      if t.stPos < 4 { NoLetter("true", t.stPos + 1, t.pb, c, fold); }
      NoLetter("false", t.stPos + 1, t.pb, c, fold);
    }
  }

  lemma FalseIsNotTrue(pb: string, c: char, fold: bool)
    requires Matches("false", 5, pb, fold)
    ensures Matches("false", 5, pb + [c], fold) && !Matches("true", 4, pb + [c], fold)
  {
    MatchesLonger("false", 5, pb, c, fold);
    assert (pb + [c])[0] == pb[0];
  }

  /** These characters are in no keyword. */
  lemma NoLetter(word: string, n: nat, pb: string, c: char, fold: bool)
    requires n <= |word| && n == |pb| + 1 && (c == '/' || c == '"' || c == '\'')
    requires forall k | 0 <= k < |word| :: 'A' <= word[k] <= 'z'
    ensures !Matches(word, n, pb + [c], fold)
  {
    assert (pb + [c])[n - 1] == c && Lower(c) == c;
  }

  lemma SavedPlain(t: Tok)
    requires Wf(t)
    ensures t.top.state == EatWs ==> AfterWs(t.top.saved)
    ensures t.below != [] ==> var s := t.below[|t.below| - 1].state; s.ArrayAdd? || s.ObjValueAdd?
  {
    if t.below != [] { assert ParentOk(t.below[|t.below| - 1]); }
  }

  lemma StartSteps(t: Tok, c: char)
    requires Wf(t) && t.top.state == Start && Elsewhere(t)
    ensures OutsideStep(StepStart(t, c), c)
  {
    hide TopOk, ParentsOk, StateRank, StepOk, Plain, Matches;
  }

  lemma NumberSteps(t: Tok, c: char)
    requires Wf(t) && t.top.state == Number && Elsewhere(t)
    ensures OutsideStep(StepNumber(t, c), c)
  {
    hide TopOk, ParentsOk, StateRank, StepOk, Plain, Matches, ParseInt64;
  }

  lemma InfSteps(t: Tok, c: char)
    requires Wf(t) && t.top.state == Inf && Elsewhere(t)
    ensures OutsideStep(StepInf(t, c), c)
  {
    hide TopOk, ParentsOk, StateRank, StepOk, Plain, Matches;
  }

  lemma EatWsSteps(t: Tok, c: char)
    requires Wf(t) && t.top.state == EatWs && Elsewhere(t)
    ensures OutsideStep(StepEatWs(t, c), c)
  {
    hide TopOk, ParentsOk, StateRank, StepOk, Plain, Matches;
    SavedPlain(t);
  }

  lemma FinishSteps(t: Tok, c: char)
    requires Wf(t) && t.top.state == Finish && Elsewhere(t)
    ensures OutsideStep(StepFinish(t), c)
  {
    hide TopOk, ParentsOk, StateRank, StepOk, Plain, Matches;
    SavedPlain(t);
  }

  lemma OutsideSteps(t: Tok, buf: string, i: nat)
    requires Wf(t) && Elsewhere(t) && i < |buf|
    ensures OutsideStep(Micro(t, buf, i), buf[i])
  {
    hide TopOk, ParentsOk, StateRank, StepOk, Plain, Matches, StepNull, StepBoolean, StepUnicode, StepEscape,
         StepCommentStart, StepInComment, StepCommentEol, StepCommentEnd, StepString, StepField, StepStart, StepNumber, StepInf, StepEatWs, StepFinish;
    match t.top.state
    case Null => NullSteps(t, buf[i]);
    case Boolean => BooleanSteps(t, buf[i]);
    case Start => StartSteps(t, buf[i]);
    case Number => NumberSteps(t, buf[i]);
    case Inf => InfSteps(t, buf[i]);
    case EatWs => EatWsSteps(t, buf[i]);
    case Finish => FinishSteps(t, buf[i]);
    case _ =>
  }

  lemma OutsideFollows(t: Tok, buf: string, i: nat, kept: Kept)
    requires Wf(t) && !InText(t.top.state) && !IsCommentState(t.top.state) && i < |buf| && Follows(t, buf, i, kept)
    ensures StepFollows(Micro(t, buf, i), buf, i, kept)
  {
    hide Wf, StateRank, StepOk, Plain, LowAhead, WaitingAfter, Micro, Matches, ModeAt, HexVal;
    OutsideSteps(t, buf, i);
    ModeNext(buf, i);
  }

  /** Every step keeps it, and none ends in Undefined. */
  lemma MicroFollows(t: Tok, buf: string, i: nat, kept: Kept)
    requires Wf(t) && i < |buf| && Follows(t, buf, i, kept)
    ensures StepFollows(Micro(t, buf, i), buf, i, kept)
  {
    hide TopOk, ParentsOk, StateRank, StepOk, Plain, Follows, StepFollows, StepUnicode, StepEscape,
         StepCommentStart, StepInComment, StepCommentEol, StepCommentEnd, StepString, StepField;
    if t.top.state == EscapeUnicode {
      UnicodeFollows(t, buf, i, kept);
    } else if t.top.state == StrEscape {
      if buf[i] == 'u' { EscapeUFollows(t, buf, i, kept); } else { EscapeFollows(t, buf, i, kept); }
    } else if t.top.state == Str {
      StringFollows(t, buf, i, kept);
    } else if t.top.state == Field {
      FieldFollows(t, buf, i, kept);
    } else if t.top.state == CommentStart {
      CommentStartFollows(t, buf, i, kept);
    } else if t.top.state == Comment {
      InCommentFollows(t, buf, i, kept);
    } else if t.top.state == CommentEol {
      CommentEolFollows(t, buf, i, kept);
    } else if t.top.state == CommentEnd {
      CommentEndFollows(t, buf, i, kept);
    } else {
      OutsideFollows(t, buf, i, kept);
    }
  }

  /** A run that starts where the tokener knows what the text before it left open never
      shifts by a negative amount. */
  lemma {:induction false} NeverUndefined(t: Tok, buf: string, i: nat, kept: Kept)
    requires Wf(t) && Follows(t, buf, i, kept)
    ensures Run(t, buf, i).err != Undefined
    decreases |buf| - i, Rank(t)
  {
    hide Micro, Plain, TopOk, ParentsOk, StateRank, Rank, Follows;
    if i < |buf| {
      MicroFollows(t, buf, i, kept);
      match Micro(t, buf, i)
      case Redo(u) => NeverUndefined(u, buf, i, kept);
      case Out(_, _, _) =>
      case Next(u, n) => if buf[i] != '\0' { NeverUndefined(u, buf, i + n, kept); }
    }
  }
}
