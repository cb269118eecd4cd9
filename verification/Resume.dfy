/** A text may be cut into pieces: json_tokener_parse_ex asks for more until the last
    piece and then returns what it returns for the whole text. */
module Resume {
  import opened JsonValue
  import opened Sequences
  import opened Tokener

  // ------------------------------------------------------------ the call that saw the whole text and the one that did not

  /** t saw the text from its start, u was resumed somewhere on the way: they agree on
      everything that outlives a call, and u is at least as lenient inside a number. */
  ghost predicate Sim(t: Tok, u: Tok) {
    && u == t.(caseLen := u.caseLen, isExp := u.isExp, negPos := u.negPos, obj := u.obj)
    && (t.top.state == Number ==>
          && u.caseLen <= t.caseLen && (u.isExp ==> t.isExp)
          && t.negPos <= t.caseLen + 1 && u.negPos <= u.caseLen + 1
          && (t.caseLen + 1 == t.negPos ==> u.caseLen + 1 == u.negPos))
    && (t.top.state == ArrayAdd || t.top.state == ObjValueAdd ==> u.obj == t.obj)
  }

  /** The call that ends as h returned a value and consumed everything. */
  ghost predicate Good(h: Halt, buf: string) {
    Conclude(h).err == Success && h.off == |buf|
  }

  /** p is what a call sees of buf from position i on; j is the position of i in p. */
  ghost predicate Window(buf: string, i: nat, p: string, j: nat) {
    && j <= |p| && i + |p| - j <= |buf|
    && forall k | j <= k < |p| :: p[k] == buf[i + (k - j)]
  }

  /** The step s at i stays inside the piece, and looks at nothing outside it. */
  ghost predicate Inside(s: Step, buf: string, i: nat, p: string, j: nat) {
    || i + |p| - j == |buf|
    || (s.Next? ==> j + s.n <= |p| && (s.n > 1 ==> j + s.n < |p|))
  }

  /** Minus infinity is only looked for right after the minus sign. */
  predicate StrayLetter(t: Tok, c: char) {
    t.top.state == Number && t.caseLen > 1 && (c == 'i' || c == 'I')
  }

  ghost predicate SimSteps(s: Step, r: Step) {
    match s
    case Next(t', n) => r.Next? && r.n == n && Sim(t', r.t)
    case Redo(t') => r.Redo? && Sim(t', r.t)
    case Out(t', n, e) => e == Success ==> r.Out? && r.n == n && r.err == e && Sim(t', r.t)
  }

  lemma SimNumber(t: Tok, u: Tok, c: char)
    requires Wf(t) && Wf(u) && Sim(t, u) && t.top.state == Number && !StrayLetter(t, c)
    ensures SimSteps(StepNumber(t, c), StepNumber(u, c))
  {
    hide StepOk, Plain, TopOk, ParentsOk, StateRank, ParseInt64;
  }

  lemma SavedKinds(t: Tok)
    requires Wf(t)
    ensures t.top.state == EatWs || t.top.state == StrEscape || t.top.state == EscapeUnicode ==>
              t.top.saved != Number && t.top.saved != ArrayAdd && t.top.saved != ObjValueAdd
  {
  }

  lemma SimCodePoint(t: Tok, u: Tok, buf: string, i: nat, p: string, j: nat)
    requires Wf(t) && Wf(u) && Sim(t, u) && t.top.state == EscapeUnicode
    requires Window(buf, i, p, j) && j < |p| && Inside(StepCodePoint(t, buf, i), buf, i, p, j)
    ensures SimSteps(StepCodePoint(t, buf, i), StepCodePoint(u, p, j))
  {
    hide StepOk, Plain, TopOk, ParentsOk, StateRank, DecodeUnit, Utf8;
    SavedKinds(t);
    match DecodeUnit(t.gotHi, t.ucs)
    case Bytes(_) =>
    case HighHalf(_, _) =>
      assert EscapeAhead(buf, i) == EscapeAhead(p, j) || (|p| - j < |buf| - i && |p| - j <= 3) by {
        if j + 1 < |p| { assert p[j + 1] == buf[i + 1]; }
        if j + 2 < |p| { assert p[j + 2] == buf[i + 2]; }
      }
  }

  lemma SimUnicode(t: Tok, u: Tok, buf: string, i: nat, p: string, j: nat)
    requires Wf(t) && Wf(u) && Sim(t, u) && t.top.state == EscapeUnicode
    requires Window(buf, i, p, j) && j < |p| && Inside(StepUnicode(t, buf, i), buf, i, p, j)
    ensures SimSteps(StepUnicode(t, buf, i), StepUnicode(u, p, j))
  {
    hide StepOk, Plain, TopOk, ParentsOk, StateRank, StepCodePoint;
    var c := buf[i];
    assert p[j] == c;
    if IsHex(c) && t.stPos == 3 {
      var ucs := t.ucs + HexVal(c) * Shift(t.stPos);
      SimCodePoint(t.(ucs := ucs, stPos := 4), u.(ucs := ucs, stPos := 4), buf, i, p, j);
    }
  }

  lemma SimNull(t: Tok, u: Tok, c: char)
    requires Wf(t) && Wf(u) && Sim(t, u) && t.top.state == Null
    ensures SimSteps(StepNull(t, c), StepNull(u, c))
  {
    hide StepOk, Plain, TopOk, ParentsOk, StateRank, Matches;
  }

  lemma SimBoolean(t: Tok, u: Tok, c: char)
    requires Wf(t) && Wf(u) && Sim(t, u) && t.top.state == Boolean
    ensures SimSteps(StepBoolean(t, c), StepBoolean(u, c))
  {
    hide StepOk, Plain, TopOk, ParentsOk, StateRank, Matches;
  }

  lemma SimInf(t: Tok, u: Tok, c: char)
    requires Wf(t) && Wf(u) && Sim(t, u) && t.top.state == Inf
    ensures SimSteps(StepInf(t, c), StepInf(u, c))
  {
    hide StepOk, Plain, TopOk, ParentsOk, StateRank;
  }

  lemma SimEscape(t: Tok, u: Tok, c: char)
    requires Wf(t) && Wf(u) && Sim(t, u) && t.top.state == StrEscape
    ensures SimSteps(StepEscape(t, c), StepEscape(u, c))
  {
    hide StepOk, Plain, TopOk, ParentsOk, StateRank;
    SavedKinds(t);
  }

  lemma SimStart(t: Tok, u: Tok, c: char)
    requires Wf(t) && Wf(u) && Sim(t, u) && t.top.state == Start
    ensures SimSteps(StepStart(t, c), StepStart(u, c))
  {
    hide StepOk, Plain, TopOk, ParentsOk, StateRank;
  }

  lemma SimCommentStart(t: Tok, u: Tok, c: char)
    requires Wf(t) && Wf(u) && Sim(t, u) && t.top.state == CommentStart
    ensures SimSteps(StepCommentStart(t, c), StepCommentStart(u, c))
  {
    hide StepOk, Plain, TopOk, ParentsOk, StateRank;
  }

  lemma SimInComment(t: Tok, u: Tok, c: char)
    requires Wf(t) && Wf(u) && Sim(t, u) && t.top.state == Comment
    ensures SimSteps(StepInComment(t, c), StepInComment(u, c))
  {
    hide StepOk, Plain, TopOk, ParentsOk, StateRank;
  }

  lemma SimCommentEol(t: Tok, u: Tok, c: char)
    requires Wf(t) && Wf(u) && Sim(t, u) && t.top.state == CommentEol
    ensures SimSteps(StepCommentEol(t, c), StepCommentEol(u, c))
  {
    hide StepOk, Plain, TopOk, ParentsOk, StateRank;
  }

  lemma SimCommentEnd(t: Tok, u: Tok, c: char)
    requires Wf(t) && Wf(u) && Sim(t, u) && t.top.state == CommentEnd
    ensures SimSteps(StepCommentEnd(t, c), StepCommentEnd(u, c))
  {
    hide StepOk, Plain, TopOk, ParentsOk, StateRank;
  }

  lemma SimEatWs(t: Tok, u: Tok, c: char)
    requires Wf(t) && Wf(u) && Sim(t, u) && t.top.state == EatWs
    ensures SimSteps(StepEatWs(t, c), StepEatWs(u, c))
  {
    hide StepOk, Plain, TopOk, ParentsOk, StateRank;
    SavedKinds(t);
  }

  lemma SimString(t: Tok, u: Tok, c: char)
    requires Wf(t) && Wf(u) && Sim(t, u) && t.top.state == Str
    ensures SimSteps(StepString(t, c), StepString(u, c))
  {
    hide StepOk, Plain, TopOk, ParentsOk, StateRank;
  }

  lemma SimField(t: Tok, u: Tok, c: char)
    requires Wf(t) && Wf(u) && Sim(t, u) && t.top.state == Field
    ensures SimSteps(StepField(t, c), StepField(u, c))
  {
    hide StepOk, Plain, TopOk, ParentsOk, StateRank, CString;
  }

  lemma SimArray(t: Tok, u: Tok, c: char)
    requires Wf(t) && Wf(u) && Sim(t, u) && (t.top.state == Array || t.top.state == ArrayAfterSep)
    ensures SimSteps(StepArray(t, c), StepArray(u, c))
  {
    hide StepOk, Plain, TopOk, ParentsOk, StateRank;
  }

  lemma SimFieldStart(t: Tok, u: Tok, c: char)
    requires Wf(t) && Wf(u) && Sim(t, u) && (t.top.state == FieldStart || t.top.state == FieldStartAfterSep)
    ensures SimSteps(StepFieldStart(t, c), StepFieldStart(u, c))
  {
    hide StepOk, Plain, TopOk, ParentsOk, StateRank;
  }

  lemma SimObjValueAdd(t: Tok, u: Tok, c: char)
    requires Wf(t) && Wf(u) && Sim(t, u) && t.top.state == ObjValueAdd
    ensures SimSteps(StepObjValueAdd(t), StepObjValueAdd(u))
  {
    hide StepOk, Plain, TopOk, ParentsOk, StateRank, AddMember;
  }

  lemma SimFinish(t: Tok, u: Tok, c: char)
    requires Wf(t) && Wf(u) && Sim(t, u) && t.top.state == Finish
    ensures SimSteps(StepFinish(t), StepFinish(u))
  {
    hide StepOk, Plain, TopOk, StateRank;
  }

  lemma SimArrayAdd(t: Tok, u: Tok, c: char)
    requires Wf(t) && Wf(u) && Sim(t, u) && t.top.state == ArrayAdd
    ensures SimSteps(StepArrayAdd(t), StepArrayAdd(u))
  {
    hide StepOk, Plain, TopOk, ParentsOk, StateRank;
  }

  lemma SimArraySep(t: Tok, u: Tok, c: char)
    requires Wf(t) && Wf(u) && Sim(t, u) && t.top.state == ArraySep
    ensures SimSteps(StepSep(t, c, ']', ArrayAfterSep, BadArray), StepSep(u, c, ']', ArrayAfterSep, BadArray))
  {
    hide StepOk, Plain, TopOk, ParentsOk, StateRank;
  }

  lemma SimObjSep(t: Tok, u: Tok, c: char)
    requires Wf(t) && Wf(u) && Sim(t, u) && t.top.state == ObjSep
    ensures SimSteps(StepSep(t, c, '}', FieldStartAfterSep, BadValueSep), StepSep(u, c, '}', FieldStartAfterSep, BadValueSep))
  {
    hide StepOk, Plain, TopOk, ParentsOk, StateRank;
  }

  lemma SimObjValue(t: Tok, u: Tok, c: char)
    requires Wf(t) && Wf(u) && Sim(t, u) && t.top.state == ObjValue
    ensures SimSteps(Push(t, ObjValueAdd), Push(u, ObjValueAdd))
  {
    hide StepOk, Plain, TopOk, ParentsOk, StateRank;
  }

  lemma SimStep(t: Tok, u: Tok, buf: string, i: nat, p: string, j: nat)
    requires Wf(t) && Wf(u) && Sim(t, u)
    requires Window(buf, i, p, j) && j < |p| && !StrayLetter(t, buf[i])
    requires Inside(Micro(t, buf, i), buf, i, p, j)
    ensures SimSteps(Micro(t, buf, i), Micro(u, p, j))
  {
    hide StepOk, Plain, TopOk, ParentsOk, StateRank, StepNull, StepBoolean, StepInf, StepEscape, StepStart, StepCommentStart, StepInComment,
         StepCommentEol, StepCommentEnd, StepNumber,
         StepUnicode, StepEatWs, StepString, StepField, StepArray, StepFieldStart, StepObjValueAdd, StepCodePoint,
         StepFinish, StepArrayAdd, StepSep, Push;
    assert p[j] == buf[i];
    SavedKinds(t);
    match t.top.state
    case Number => SimNumber(t, u, buf[i]);
    case EscapeUnicode => SimUnicode(t, u, buf, i, p, j);
    case Null => SimNull(t, u, buf[i]);
    case Boolean => SimBoolean(t, u, buf[i]);
    case Inf => SimInf(t, u, buf[i]);
    case StrEscape => SimEscape(t, u, buf[i]);
    case Start => SimStart(t, u, buf[i]);
    case CommentStart => SimCommentStart(t, u, buf[i]);
    case Comment => SimInComment(t, u, buf[i]);
    case CommentEol => SimCommentEol(t, u, buf[i]);
    case CommentEnd => SimCommentEnd(t, u, buf[i]);
    case Finish => SimFinish(t, u, buf[i]);
    case ArrayAdd => SimArrayAdd(t, u, buf[i]);
    case ArraySep => SimArraySep(t, u, buf[i]);
    case ObjSep => SimObjSep(t, u, buf[i]);
    case ObjValue => SimObjValue(t, u, buf[i]);
    case FieldEnd =>
    case EatWs => SimEatWs(t, u, buf[i]);
    case Str => SimString(t, u, buf[i]);
    case Field => SimField(t, u, buf[i]);
    case Array => SimArray(t, u, buf[i]);
    case ArrayAfterSep => SimArray(t, u, buf[i]);
    case FieldStart => SimFieldStart(t, u, buf[i]);
    case FieldStartAfterSep => SimFieldStart(t, u, buf[i]);
    case ObjValueAdd => SimObjValueAdd(t, u, buf[i]);
  }

  // ------------------------------------------------------------ the last piece

  /** A letter right after a complete number is an error, or ends the document early. */
  lemma LetterAfterValue(t: Tok, buf: string, i: nat)
    requires Wf(t) && t.top.state == EatWs && t.top.saved == Finish
    requires i < |buf| && (buf[i] == 'i' || buf[i] == 'I')
    ensures !Good(Run(t, buf, i), buf)
  {
    hide Run, TopOk, StateRank;
    var t1 := t.To(Finish);
    RunRedo(t, buf, i, t1);
    if t.below == [] {
      RunOut(t1, buf, i);
    } else {
      var n := |t.below| - 1;
      var t2 := t1.(obj := t.top.current, below := t.below[..n], top := t.below[n]);
      RunRedo(t1, buf, i, t2);
      RunLetterAdd(t2, buf, i);
    }
  }

  lemma AddThenSep(t: Tok, buf: string, i: nat)
    requires Wf(t) && (t.top.state == ArrayAdd || t.top.state == ObjValueAdd) && i < |buf|
    ensures var s := Micro(t, buf, i);
            s.Redo? && s.t.top.state == EatWs && (s.t.top.saved == ArraySep || s.t.top.saved == ObjSep)
  {
    hide StepOk, Plain, ParentsOk, StateRank, AddMember;
  }

  lemma LetterIsNoSep(t: Tok, buf: string, i: nat)
    requires Wf(t) && t.top.state == EatWs && (t.top.saved == ArraySep || t.top.saved == ObjSep)
    requires i < |buf| && (buf[i] == 'i' || buf[i] == 'I')
    ensures !Good(Run(t, buf, i), buf)
  {
    hide Run, StepOk, Plain, TopOk, ParentsOk, StateRank;
    var u := t.To(t.top.saved);
    RunRedo(t, buf, i, u);
    RunOut(u, buf, i);
  }

  lemma RunLetterAdd(t: Tok, buf: string, i: nat)
    requires Wf(t) && (t.top.state == ArrayAdd || t.top.state == ObjValueAdd)
    requires i < |buf| && (buf[i] == 'i' || buf[i] == 'I')
    ensures !Good(Run(t, buf, i), buf)
  {
    hide Run, Micro;
    AddThenSep(t, buf, i);
    RunRedo(t, buf, i, Micro(t, buf, i).t);
    LetterIsNoSep(Micro(t, buf, i).t, buf, i);
  }

  lemma StrayLetterFails(t: Tok, buf: string, i: nat)
    requires Wf(t) && i < |buf| && StrayLetter(t, buf[i])
    ensures !Good(Run(t, buf, i), buf)
  {
    hide Run, TopOk, ParentsOk, StateRank, ParseInt64;
    var s := Micro(t, buf, i);
    if s.Redo? {
      RunRedo(t, buf, i, s.t);
      LetterAfterValue(s.t, buf, i);
    } else {
      RunOut(t, buf, i);
    }
  }

  /** The resumed call ends like the call that saw everything. */
  lemma {:induction false} SimRun(t: Tok, u: Tok, buf: string, i: nat, p: string, j: nat)
    requires Wf(t) && Wf(u) && Sim(t, u)
    requires Window(buf, i, p, j) && i + |p| - j == |buf|
    requires Good(Run(t, buf, i), buf)
    ensures Good(Run(u, p, j), p)
    ensures Conclude(Run(u, p, j)).value == Conclude(Run(t, buf, i)).value
    decreases |buf| - i, Rank(t)
  {
    hide Micro, Plain, TopOk, ParentsOk, StateRank, Rank, Wf, StepOk;
    if i < |buf| {
      assert p[j] == buf[i];
      if StrayLetter(t, buf[i]) { StrayLetterFails(t, buf, i); }
      SimStep(t, u, buf, i, p, j);
      RunStep(t, buf, i);
      RunStep(u, p, j);
      match Micro(t, buf, i)
      case Redo(t') => SimRun(t', Micro(u, p, j).t, buf, i, p, j);
      case Out(_, _, _) => OutIsNotGood(t, buf, i);
      case Next(t', n) =>
        if buf[i] != '\0' { SimRun(t', Micro(u, p, j).t, buf, i + n, p, j + n); }
    } else {
      SimEnd(t, u, buf, p);
    }
  }

  lemma SimEnd(t: Tok, u: Tok, buf: string, p: string)
    requires Wf(t) && Wf(u) && Sim(t, u) && Good(Run(t, buf, |buf|), buf)
    ensures Good(Run(u, p, |p|), p) && Conclude(Run(u, p, |p|)).value == Conclude(Run(t, buf, |buf|)).value
  {
    hide Micro, TopOk, ParentsOk;
  }

  /** A call that leaves the loop before the end of its buffer has not consumed it with success. */
  lemma OutIsNotGood(t: Tok, buf: string, i: nat)
    requires Wf(t) && i < |buf| && Micro(t, buf, i).Out?
    ensures !Good(Run(t, buf, i), buf)
  {
    hide Micro, TopOk, ParentsOk, Run, StateRank, Plain;
    RunOut(t, buf, i);
  }

  // ------------------------------------------------------------ the other pieces

  /** The state in which the loop stands at character k, if it stops there at all. */
  function RunTo(t: Tok, buf: string, i: nat, k: nat): (r: Option<Tok>)
    requires Wf(t) && i <= |buf| && k <= |buf|
    ensures r.Some? ==> Wf(r.value) && i <= k
    decreases |buf| - i, Rank(t)
  {
    if i == k then Some(t)
    else if i > k then None
    else
      match Micro(t, buf, i)
      case Redo(t') => RunTo(t', buf, i, k)
      case Out(_, _, _) => None
      case Next(t', n) => if buf[i] == '\0' then None else RunTo(t', buf, i + n, k)
  }

  /** From a state that the loop passes it goes on as from the start. */
  lemma {:induction false} PassThrough(t: Tok, buf: string, i: nat, k: nat, m: nat)
    requires Wf(t) && i <= k <= m <= |buf| && RunTo(t, buf, i, k).Some?
    ensures var u := RunTo(t, buf, i, k).value;
            Run(t, buf, i) == Run(u, buf, k) && RunTo(t, buf, i, m) == RunTo(u, buf, k, m)
    decreases |buf| - i, Rank(t)
  {
    hide Micro, Plain, TopOk, ParentsOk, StateRank, Rank;
    if i < k {
      match Micro(t, buf, i)
      case Redo(t') => PassThrough(t', buf, i, k, m);
      case Out(_, _, _) =>
      case Next(t', n) => if buf[i] != '\0' { PassThrough(t', buf, i + n, k, m); }
    }
  }

  /** One step of RunTo. */
  lemma StepTo(t: Tok, buf: string, i: nat, k: nat)
    requires Wf(t) && i < k <= |buf| && Micro(t, buf, i).Next? && buf[i] != '\0'
    ensures var s := Micro(t, buf, i);
            && Wf(s.t) && i + s.n <= |buf|
            && (if i + s.n <= k then RunTo(t, buf, i, k) == RunTo(s.t, buf, i + s.n, k) else RunTo(t, buf, i, k) == None)
            && RunTo(s.t, buf, i + s.n, i + s.n) == Some(s.t)
  {
    hide Micro, Plain, TopOk, ParentsOk, StateRank, Rank;
  }

  lemma RedoTo(t: Tok, buf: string, i: nat, k: nat)
    requires Wf(t) && i < k <= |buf| && Micro(t, buf, i).Redo?
    ensures Wf(Micro(t, buf, i).t) && RunTo(t, buf, i, k) == RunTo(Micro(t, buf, i).t, buf, i, k)
  {
    hide Micro, Plain, TopOk, ParentsOk, StateRank, Rank;
  }

  lemma StandsHere(t: Tok, buf: string, i: nat)
    requires Wf(t) && i <= |buf|
    ensures RunTo(t, buf, i, i) == Some(t)
  {
  }
}
