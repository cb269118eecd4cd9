/** The errors of the tokener: which one a character that cannot stand where it does leads to,
    and that the call stops at this character. */
module TokenerErrors {
  import opened Decimals
  import opened JsonValue
  import opened Sequences
  import opened Tokener
  import opened RoundTrip

  /** The call stops at the character c at i with error e; if c is a NUL, the text was too short
      for whatever was under way. */
  predicate StopsWith(h: Halt, c: char, i: nat, e: Error) {
    var r := Conclude(h); r.off == i && r.err == if c == '\0' then Eof else e
  }

  /** Neither skipped nor the start of a comment. */
  predicate Solid(c: char, strict: bool) {
    c !in " \t\n\r" && c != 11 as char && c != 12 as char && (c != '/' || strict)
  }

  /** A step that fails at i. */
  lemma FailStops(t: Tok, buf: string, i: nat, e: Error)
    requires Wf(t) && i < |buf| && Micro(t, buf, i).Out? && Micro(t, buf, i).n == 0 && Micro(t, buf, i).err == e && e != Success
    requires Micro(t, buf, i).t.top.state != Finish && Micro(t, buf, i).t.top.saved != Finish
    ensures StopsWith(Run(t, buf, i), buf[i], i, e)
  {
    hide Micro, Wf, Run;
    RunOut(t, buf, i);
  }

  lemma ToToken(t: Tok, buf: string, i: nat) returns (u: Tok)
    requires Wf(t) && t.top.state == EatWs && i < |buf| && Solid(buf[i], t.cfg.strict)
    ensures Wf(u) && u == t.To(t.top.saved) && Run(t, buf, i) == Run(u, buf, i)
  {
    hide Run, StepOk, Plain, TopOk, ParentsOk, StateRank;
    u := t.To(t.top.saved);
    RunRedo(t, buf, i, u);
  }

  /** Behind an element of an array stands a comma or the bracket, behind a member of an object a
      comma or the brace, behind a key a colon, and in front of a key a quote. */
  lemma WrongSeparator(t: Tok, buf: string, i: nat)
    requires Wf(t) && t.top.state == EatWs && i < |buf| && Solid(buf[i], t.cfg.strict)
    ensures t.top.saved == ArraySep && buf[i] !in ",]" ==> StopsWith(Run(t, buf, i), buf[i], i, BadArray)
    ensures t.top.saved == ObjSep && buf[i] !in ",}" ==> StopsWith(Run(t, buf, i), buf[i], i, BadValueSep)
    ensures t.top.saved == FieldEnd && buf[i] != ':' ==> StopsWith(Run(t, buf, i), buf[i], i, BadKeySep)
    ensures (t.top.saved == FieldStart || t.top.saved == FieldStartAfterSep) && buf[i] !in "}\"'" ==> StopsWith(Run(t, buf, i), buf[i], i, BadKeyName)
  {
    hide Run, StepOk, Plain, TopOk, ParentsOk, StateRank, Solid, Conclude, StopsWith;
    var u := ToToken(t, buf, i);
    var c := buf[i];
    if u.top.state == ArraySep && c !in ",]" { FailStops(u, buf, i, BadArray); }
    if u.top.state == ObjSep && c !in ",}" { FailStops(u, buf, i, BadValueSep); }
    if u.top.state == FieldEnd && c != ':' { FailStops(u, buf, i, BadKeySep); }
    if (u.top.state == FieldStart || u.top.state == FieldStartAfterSep) && c !in "}\"'" { FailStops(u, buf, i, BadKeyName); }
  }

  /** A strict tokener wants another child behind a comma. */
  lemma TrailingComma(t: Tok, buf: string, i: nat)
    requires Wf(t) && t.top.state == EatWs && i < |buf| && t.cfg.strict
    ensures t.top.saved == ArrayAfterSep && buf[i] == ']' ==> StopsWith(Run(t, buf, i), buf[i], i, Unexpected)
    ensures t.top.saved == FieldStartAfterSep && buf[i] == '}' ==> StopsWith(Run(t, buf, i), buf[i], i, Unexpected)
  {
    hide Run, StepOk, Plain, TopOk, ParentsOk, StateRank, Conclude, StopsWith;
    if (t.top.saved == ArrayAfterSep && buf[i] == ']') || (t.top.saved == FieldStartAfterSep && buf[i] == '}') {
      var u := ToToken(t, buf, i);
      FailStops(u, buf, i, Unexpected);
    }
  }

  /** No value starts with another character; single quotes are not for strict tokeners. */
  lemma WrongStart(t: Tok, buf: string, i: nat)
    requires Wf(t) && t.top == RESET_LEVEL && i < |buf| && Solid(buf[i], t.cfg.strict)
    requires buf[i] !in "{[\"-0123456789nNtTfFiI" && (buf[i] == '\'' ==> t.cfg.strict)
    ensures StopsWith(Run(t, buf, i), buf[i], i, Unexpected)
  {
    hide Run, StepOk, Plain, TopOk, ParentsOk, StateRank, Solid, Conclude, StopsWith;
    var u := ToToken(t, buf, i);
    NoWord(buf[i]);
    FailStops(u, buf, i, Unexpected);
  }

  lemma NoWord(c: char)
    requires c !in "-0123456789nNtTfFiI"
    ensures WordState(c) == Start && !IsDigit(c) && c != '-'
  {
  }

  /** One level too many. */
  lemma TooDeep(t: Tok, buf: string, i: nat)
    requires Wf(t) && t.top.state == EatWs && i < |buf| && Solid(buf[i], t.cfg.strict) && |t.below| + 1 == t.cfg.maxDepth
    requires t.top.saved == ObjValue || (t.top.saved == Array && buf[i] != ']')
    ensures StopsWith(Run(t, buf, i), buf[i], i, Depth)
  {
    hide Run, StepOk, Plain, TopOk, ParentsOk, StateRank, Solid, Conclude, StopsWith;
    var u := ToToken(t, buf, i);
    FailStops(u, buf, i, Depth);
  }

  /** Behind a backslash ... */
  lemma WrongEscape(t: Tok, buf: string, i: nat)
    requires Wf(t) && t.top.state == StrEscape && i < |buf| && buf[i] !in "\"\\/bfnrtu"
    ensures StopsWith(Run(t, buf, i), buf[i], i, BadString)
  {
    hide Run, Micro, StepOk, Plain, ParentsOk, StateRank, Conclude, StopsWith;
    TextCases(t, buf, i);
    assert Unescaped(buf[i]) == "";
    FailStops(t, buf, i, BadString);
  }

  /** ... and in the place of a hexadecimal digit. */
  lemma WrongDigit(t: Tok, buf: string, i: nat)
    requires Wf(t) && t.top.state == EscapeUnicode && i < |buf| && buf[i] !in "0123456789abcdefABCDEF"
    ensures StopsWith(Run(t, buf, i), buf[i], i, BadString)
  {
    hide Run, Micro, StepOk, Plain, ParentsOk, StateRank, Conclude, StopsWith, StepCodePoint;
    TextCases(t, buf, i);
    FailStops(t, buf, i, BadString);
  }

  /** A slash that starts no comment. */
  lemma WrongComment(t: Tok, buf: string, i: nat)
    requires Wf(t) && t.top.state == CommentStart && i < |buf| && buf[i] !in "*/" && t.top.saved != Finish
    ensures StopsWith(Run(t, buf, i), buf[i], i, BadComment)
  {
    hide Run, StepOk, Plain, TopOk, ParentsOk, StateRank, Conclude, StopsWith;
    FailStops(t, buf, i, BadComment);
  }

  /** A word with a wrong letter, where a strict tokener has read the first j letters. */
  lemma WrongWord(t: Tok, buf: string, i: nat, w: string, j: nat)
    requires Wf(t) && t.cfg.strict && InKeyword(t, w, j) && 1 <= j < |w| && i < |buf| && buf[i] != w[j]
    ensures StopsWith(Run(t, buf, i), buf[i], i, if w == "null" then BadNull else BadBoolean)
  {
    hide Run, StepOk, Plain, TopOk, ParentsOk, StateRank, Conclude, StopsWith;
    var pb := t.pb + [buf[i]];
    assert pb[j] == buf[i] && pb[0] == w[0];
    WordSaved(t);
    FailStops(t, buf, i, if w == "null" then BadNull else BadBoolean);
  }

  lemma WordSaved(t: Tok)
    requires Wf(t)
    ensures t.top.state == Null || t.top.state == Boolean || t.top.state == Inf || t.top.state == Number ==> t.top.saved != Finish
  {
  }

  /** A number that means nothing. */
  lemma WrongNumber(t: Tok, buf: string, i: nat)
    requires Wf(t) && t.top.state == Number && i < |buf| && !IsNumberChar(buf[i]) && !MinusInf(t, buf[i]) && NumberValue(t).None?
    ensures StopsWith(Run(t, buf, i), buf[i], i, BadNumber)
  {
    hide Run, StepOk, Plain, TopOk, ParentsOk, StateRank, Conclude, NumberValue;
    WordSaved(t);
    FailStops(t, buf, i, BadNumber);
  }

  /** Behind the document of a strict call there is nothing else. */
  lemma Garbage(t: Tok, buf: string, i: nat)
    requires Wf(t) && t.cfg.strict && t.below == [] && t.top.state == EatWs && t.top.saved == Finish
    requires i < |buf| && Solid(buf[i], true) && buf[i] != '\0'
    ensures var r := Conclude(Run(t, buf, i)); r.err == Unexpected && r.off == i
  {
    hide Run, StepOk, Plain, TopOk, ParentsOk, StateRank, Solid;
    var u := ToToken(t, buf, i);
    RunOut(u, buf, i);
  }

  /** At the end of the buffer without a NUL the tokener asks for more, unless the document is
      complete. */
  lemma AsksForMore(t: Tok, buf: string)
    requires Wf(t)
    ensures Conclude(Run(t, buf, |buf|)).err ==
            if t.below == [] && t.top.state == EatWs && t.top.saved == Finish then Success
            else if t.below == [] && t.top.state == Finish && t.cfg.strict then Unexpected else Continue
    ensures Conclude(Run(t, buf, |buf|)).off == |buf|
  {
    hide TopOk, ParentsOk;
  }
}
