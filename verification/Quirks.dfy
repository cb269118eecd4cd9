/** Where the tokener does not do what its documentation says, and exactly when it does. */
module Quirks {
  import opened JsonValue
  import opened JsonText
  import opened Sequences
  import opened Tokener
  import opened RoundTrip
  import opened TextScan

  // ------------------------------------------------------------ what success means

  /** The call that ended as h stopped at a NUL inside a comment. */
  predicate NulInComment(h: Halt) { h.nul && IsCommentState(h.t.top.state) }

  /** A call that succeeds has finished the outermost value, except if it stopped at a NUL
      inside a comment: then it returns whatever value the comment follows. */
  lemma {:induction false} SuccessMeans(t: Tok, buf: string, i: nat)
    requires Wf(t) && i <= |buf|
    ensures var h := Run(t, buf, i);
            Conclude(h).err == Success ==> h.t.top.saved == Finish && (h.t.below == [] || NulInComment(h))
    decreases |buf| - i, Rank(t)
  {
    hide Micro, Plain, TopOk, ParentsOk, StateRank, Rank;
    if i < |buf| {
      RunStep(t, buf, i);
      match Micro(t, buf, i)
      case Redo(u) => SuccessMeans(u, buf, i);
      case Out(_, _, _) => SuccessOut(t, buf, i);
      case Next(u, n) =>
        if buf[i] == '\0' { NextState(t, buf, i); } else { SuccessMeans(u, buf, i + n); }
    }
  }

  lemma SuccessOut(t: Tok, buf: string, i: nat)
    requires Wf(t) && i < |buf| && Micro(t, buf, i).Out?
    ensures var s := Micro(t, buf, i);
            s.err == Success ==> s.t.below == [] && s.t.top.saved == Finish
  {
    hide Plain, StepOk, ParentsOk, StateRank;
  }

  lemma NextState(t: Tok, buf: string, i: nat)
    requires Wf(t) && i < |buf| && Micro(t, buf, i).Next? && buf[i] == '\0'
    ensures var u := Micro(t, buf, i).t.top;
            u.state != Finish && (u.saved == Finish ==> IsCommentState(u.state))
  {
    hide Plain, StepOk, ParentsOk, StateRank;
  }

  // ------------------------------------------------------------ when a success is one of the outermost value

  lemma WordStep(t: Tok, c: char)
    requires Wf(t)
    ensures t.top.state == Null ==> !IsCommentState(StepNull(t, c).t.top.state)
    ensures t.top.state == Boolean ==> !IsCommentState(StepBoolean(t, c).t.top.state)
    ensures t.top.state == Inf ==> !IsCommentState(StepInf(t, c).t.top.state)
    ensures t.top.state == Number ==> !IsCommentState(StepNumber(t, c).t.top.state)
  {
    hide TopOk, ParentsOk, StateRank, StepOk, Plain, NumberValue, Matches;
  }

  lemma InnerStep(t: Tok, buf: string, i: nat)
    requires Wf(t) && InText(t.top.state) && i < |buf|
    ensures !IsCommentState(Micro(t, buf, i).t.top.state)
  {
    hide Micro, ParentsOk, StateRank, StepOk, Plain, DecodeUnit, CString, Unescaped;
    TextCases(t, buf, i);
  }

  /** A strict tokener does not get into a comment. */
  lemma StrictStep(t: Tok, buf: string, i: nat)
    requires Wf(t) && t.cfg.strict && !IsCommentState(t.top.state) && i < |buf|
    ensures !IsCommentState(Micro(t, buf, i).t.top.state)
  {
    hide TopOk, ParentsOk, StateRank, StepOk, Plain, StepNull, StepBoolean, StepInf, StepNumber, StepUnicode, StepEscape, StepString,
         StepField;
    SavedIsNoComment(t);
    WordStep(t, buf[i]);
    if InText(t.top.state) { InnerStep(t, buf, i); }
  }

  lemma SavedIsNoComment(t: Tok)
    requires Wf(t)
    ensures t.top.state == EatWs || t.top.state == StrEscape || t.top.state == EscapeUnicode ==> !IsCommentState(t.top.saved)
    ensures t.below != [] ==> !IsCommentState(t.below[|t.below| - 1].state)
  {
    if t.below != [] { assert ParentOk(t.below[|t.below| - 1]); }
  }

  lemma {:induction false} StrictRun(t: Tok, buf: string, i: nat)
    requires Wf(t) && t.cfg.strict && !IsCommentState(t.top.state) && i <= |buf|
    ensures !IsCommentState(Run(t, buf, i).t.top.state)
    decreases |buf| - i, Rank(t)
  {
    hide Micro, Plain, TopOk, ParentsOk, StateRank, Rank;
    if i < |buf| {
      RunStep(t, buf, i);
      StrictStep(t, buf, i);
      match Micro(t, buf, i)
      case Redo(u) => StrictRun(u, buf, i);
      case Out(_, _, _) =>
      case Next(u, n) => if buf[i] != '\0' { StrictRun(u, buf, i + n); }
    }
  }

  lemma OuterSuccess(t: Tok, text: string)
    requires Ready(t) && (t.cfg.strict || t.cfg.maxDepth <= 1) && ParseZ(t, text).err == Success
    ensures |ParseZ(t, text).t.below| == 0
  {
    hide Micro, Run, TopOk, ParentsOk;
    var buf := text + ['\0'];
    SuccessMeans(StartCall(t), buf, 0);
    if t.cfg.strict { StrictRun(StartCall(t), buf, 0); }
  }

  /** Every success returns the outermost value, whatever the text is, if and only if the
      tokener is strict or accepts no nesting. */
  lemma OutermostOnly(t: Tok)
    requires Ready(t)
    ensures (forall text :: ParseZ(t, text).err == Success ==> |ParseZ(t, text).t.below| == 0)
            <==> t.cfg.strict || t.cfg.maxDepth <= 1
  {
    hide ParseZ, TopOk, ParentsOk;
    if t.cfg.strict || t.cfg.maxDepth <= 1 {
      forall text | ParseZ(t, text).err == Success ensures |ParseZ(t, text).t.below| == 0 {
        OuterSuccess(t, text);
      }
    } else {
      InnerValueReturned(t);
      assert ParseZ(t, "[1/*").err == Success;
    }
  }

  /** An open bracket, 1 and an unclosed comment, then the NUL: the call succeeds and returns the element, one level down. */
  lemma InnerValueReturned(t: Tok)
    requires Ready(t) && !t.cfg.strict && t.cfg.maxDepth > 1
    ensures var r := ParseZ(t, "[1/*"); r.err == Success && r.value == JInt(1) && |r.t.below| == 1
  {
    hide Run, StepOk, Plain, TopOk, ParentsOk, StateRank, StepNumber, Micro;
    var buf := "[1/*" + ['\0'];
    var s := StartCall(t);
    assert At(buf, 0, ['['] + ("" + "1"));
    var t1 := OpenContainer(s, buf, 0, '[', "", "1");
    var t2 := RunPush(t1, buf, 1);
    IntCodec(1);
    assert IntText(1) == "1";
    var t3 := ParseInt(t2, buf, 1, 1);
    EnterComment(t3, buf, 2);
  }

  lemma EnterComment(t: Tok, buf: string, i: nat)
    requires Wf(t) && !t.cfg.strict && t.top.state == EatWs && t.top.saved == Finish
    requires i + 3 == |buf| && buf[i] == '/' && buf[i + 1] == '*' && buf[i + 2] == '\0'
    ensures var r := Conclude(Run(t, buf, i));
            r.err == Success && r.value == t.top.current && |r.t.below| == |t.below|
  {
    hide Run, StepOk, Plain, TopOk, ParentsOk, StateRank;
    var t1 := t.(pb := "/").To(CommentStart);
    assert Micro(t, buf, i) == Next(t1, 1);
    RunNext(t, buf, i, t1, 1);
    var t2 := t1.Append("*").To(Comment);
    RunNext(t1, buf, i + 1, t2, 1);
    RunNul(t2, buf, i + 2);
  }

  lemma RunNul(t: Tok, buf: string, i: nat)
    requires Wf(t) && t.top.state == Comment && i < |buf| && buf[i] == '\0'
    ensures Run(t, buf, i) == Halt(t.Append(['\0']), i + 1, Success, true)
  {
    hide Plain, TopOk, ParentsOk, StateRank;
  }
}
