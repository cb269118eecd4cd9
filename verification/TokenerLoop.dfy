/** json_tokener_parse_ex as the C function runs it: one loop over the buffer that updates
    the tokener in place, with an inner loop for white space, comments, strings, keys,
    unicode escapes and numbers.  It is proved equal to Tokener.ParseEx. */
module TokenerLoop {
  import opened Decimals
  import opened JsonValue
  import opened Tokener

  /** How a case of the switch ends: break, goto redo_char, or goto out. */
  datatype Act = Break | RedoChar | GotoOut

  /** What the loop knows after a case: position, current character, the local obj. */
  datatype Cursor = Cursor(act: Act, pos: nat, c: char, obj: JValue)

  class JsonTokener {
    const cfg: Config
    var stack: array<Level>
    var depth: nat
    var pb: string
    var dbl: bool
    var stPos: nat
    var ucs: nat
    var quote: char
    var err: Error
    var charOffset: nat

    /** g is what this tokener holds; its call-local fields are free. */
    ghost predicate Reps(g: Tok, obj: JValue)
      reads this, stack
    {
      && depth < stack.Length == cfg.maxDepth
      && g.cfg == cfg && g.below == stack[..depth] && g.top == stack[depth]
      && g.pb == pb && g.dbl == dbl && g.stPos == stPos && g.ucs == ucs && g.quote == quote && g.obj == obj
    }

    /** The tokener as a value, at the start of a call. */
    ghost function Snapshot(): (g: Tok)
      reads this, stack
      requires depth < stack.Length == cfg.maxDepth
      ensures Reps(g, JNull)
    {
      Tok(cfg, stack[..depth], stack[depth], pb, dbl, stPos, ucs, quote, 0, false, 1, 0, JNull)
    }

    ghost predicate Valid()
      reads this, stack
    {
      depth < stack.Length == cfg.maxDepth && Wf(Snapshot())
    }

    /** json_tokener_new_ex */
    constructor (cfg: Config)
      requires cfg.maxDepth >= 1
      ensures Valid() && this.cfg == cfg && Snapshot() == NewTok(cfg)
      ensures fresh(stack)
    {
      this.cfg := cfg;
      stack := new Level[cfg.maxDepth](_ => RESET_LEVEL);
      depth := 0;
      pb, dbl, stPos, ucs, quote, err, charOffset := "", false, 0, 0, '\0', Success, 0;
    }

    // ---------------------------------------------------------- the contract of a case

    /** A case that made exactly the step s. */
    ghost predicate Made(s: Step, k: Cursor, i: nat, c: char)
      reads this, stack
    {
      && Reps(s.t, k.obj) && k.pos == i && k.c == c
      && match s
         case Next(_, n) => n == 1 && k.act == Break && err == Success
         case Redo(_) => k.act == RedoChar && err == Success
         case Out(_, n, e) => n == 0 && k.act == GotoOut && err == e
    }

    method Set(s: State)
      requires depth < stack.Length
      modifies stack
      ensures stack[..depth] == old(stack[..depth])
      ensures stack[depth] == old(stack[depth]).(state := s)
    {
      stack[depth] := stack[depth].(state := s);
    }

    /** state = json_tokener_state_eatws; saved_state = s; */
    method SetWs(s: State)
      requires depth < stack.Length
      modifies stack
      ensures stack[..depth] == old(stack[..depth])
      ensures stack[depth] == old(stack[depth]).(state := EatWs, saved := s)
    {
      stack[depth] := stack[depth].(state := EatWs, saved := s);
    }

    method SetValue(v: JValue)
      requires depth < stack.Length
      modifies stack
      ensures stack[..depth] == old(stack[..depth])
      ensures stack[depth] == old(stack[depth]).(state := EatWs, saved := Finish, current := v)
    {
      stack[depth] := stack[depth].(current := v);
      SetWs(Finish);
    }

    // ---------------------------------------------------------- cases of one character

    method CaseStart(c: char, i: nat, obj: JValue, ghost g: Tok) returns (k: Cursor)
      requires err == Success && Wf(g) && Reps(g, obj) && g.top.state == Start
      modifies this, stack
      ensures stack == old(stack) && charOffset == old(charOffset)
      ensures Made(StepStart(g, c), k, i, c)
    {
      hide Wf, StepOk, Plain;
      var act := Break;
      if c == '{' {
        stack[depth] := stack[depth].(current := JObject([]));
        SetWs(FieldStart);
      } else if c == '[' {
        stack[depth] := stack[depth].(current := JArray([]));
        SetWs(Array);
      } else if c == '\'' && cfg.strict {
        err, act := Unexpected, GotoOut;
      } else if c == '\'' || c == '"' {
        Set(Str);
        pb, quote := "", c;
      } else if IsDigit(c) || c == '-' {
        Set(Number);
        pb, dbl, act := "", false, RedoChar;
      } else {
        k := StartWord(c, i, obj, g);
        return;
      }
      k := Cursor(act, i, c, obj);
    }

    /** A value that starts with a letter. */
    method StartWord(c: char, i: nat, obj: JValue, ghost g: Tok) returns (k: Cursor)
      requires err == Success && Wf(g) && Reps(g, obj) && g.top.state == Start
      requires c != '{' && c != '[' && c != '\'' && c != '"' && !IsDigit(c) && c != '-'
      modifies this, stack
      ensures stack == old(stack) && charOffset == old(charOffset)
      ensures Made(StepStart(g, c), k, i, c)
    {
      hide Wf, StepOk, Plain;
      var act := RedoChar;
      if Lower(c) == 'i' {
        Set(Inf);
        pb, stPos := "", 0;
      } else if Lower(c) == 'n' {
        Set(Null);
        pb, stPos := "", 0;
      } else if Lower(c) == 't' || Lower(c) == 'f' {
        Set(Boolean);
        pb, stPos := "", 0;
      } else {
        err, act := Unexpected, GotoOut;
      }
      k := Cursor(act, i, c, obj);
    }

    method CaseFinish(c: char, i: nat, obj: JValue, ghost g: Tok) returns (k: Cursor)
      requires err == Success && Wf(g) && Reps(g, obj) && g.top.state == Finish
      modifies this, stack
      ensures stack == old(stack) && charOffset == old(charOffset)
      ensures Made(StepFinish(g), k, i, c)
    {
      hide Wf, StepOk, Plain;
      if depth == 0 {
        k := Cursor(GotoOut, i, c, obj);
      } else {
        var v := stack[depth].current;
        stack[depth] := RESET_LEVEL;
        depth := depth - 1;
        assert g.below[..|g.below| - 1] == stack[..depth];
        k := Cursor(RedoChar, i, c, v);
      }
    }

    method CaseNull(c: char, i: nat, obj: JValue, ghost g: Tok) returns (k: Cursor)
      requires err == Success && Wf(g) && Reps(g, obj) && g.top.state == Null
      modifies this, stack
      ensures stack == old(stack) && charOffset == old(charOffset)
      ensures Made(StepNull(g, c), k, i, c)
    {
      hide Wf, StepOk, Plain, Matches;
      var act := Break;
      pb := pb + [c];
      if Matches("null", Min(stPos + 1, 4), pb, !cfg.strict) {
        if stPos == 4 {
          SetValue(JNull);
          act := RedoChar;
        }
      } else if Matches("NaN", Min(stPos + 1, 3), pb, !cfg.strict) {
        if stPos == 3 {
          SetValue(JDouble("NaN"));
          act := RedoChar;
        }
      } else {
        err, act := BadNull, GotoOut;
      }
      if act == Break { stPos := stPos + 1; }
      k := Cursor(act, i, c, obj);
    }

    method CaseBoolean(c: char, i: nat, obj: JValue, ghost g: Tok) returns (k: Cursor)
      requires err == Success && Wf(g) && Reps(g, obj) && g.top.state == Boolean
      modifies this, stack
      ensures stack == old(stack) && charOffset == old(charOffset)
      ensures Made(StepBoolean(g, c), k, i, c)
    {
      hide Wf, StepOk, Plain, Matches;
      var act := Break;
      pb := pb + [c];
      if Matches("true", Min(stPos + 1, 4), pb, !cfg.strict) {
        if stPos == 4 {
          SetValue(JBool(true));
          act := RedoChar;
        }
      } else if Matches("false", Min(stPos + 1, 5), pb, !cfg.strict) {
        if stPos == 5 {
          SetValue(JBool(false));
          act := RedoChar;
        }
      } else {
        err, act := BadBoolean, GotoOut;
      }
      if act == Break { stPos := stPos + 1; }
      k := Cursor(act, i, c, obj);
    }

    /** The two comment states without an inner loop. */
    method CaseCommentMark(c: char, i: nat, obj: JValue, ghost g: Tok) returns (k: Cursor)
      requires err == Success && Wf(g) && Reps(g, obj) && (g.top.state == CommentStart || g.top.state == CommentEnd)
      modifies this, stack
      ensures stack == old(stack) && charOffset == old(charOffset)
      ensures Made(if g.top.state == CommentStart then StepCommentStart(g, c) else StepCommentEnd(g, c), k, i, c)
    {
      hide Wf, StepOk, Plain;
      var act := Break;
      if stack[depth].state == CommentStart {
        if c == '*' {
          Set(Comment);
          pb := pb + [c];
        } else if c == '/' {
          Set(CommentEol);
          pb := pb + [c];
        } else {
          err, act := BadComment, GotoOut;
        }
      } else {
        pb := pb + [c];
        Set(if c == '/' then EatWs else Comment);
      }
      k := Cursor(act, i, c, obj);
    }

    method CaseEscape(c: char, i: nat, obj: JValue, ghost g: Tok) returns (k: Cursor)
      requires err == Success && Wf(g) && Reps(g, obj) && g.top.state == StrEscape && g.gotHi == 0
      modifies this, stack
      ensures stack == old(stack) && charOffset == old(charOffset)
      ensures Made(StepEscape(g, c), k, i, c)
    {
      hide Wf, StepOk, Plain;
      var act := Break;
      if Unescaped(c) != "" {
        pb := pb + Unescaped(c);
        Set(stack[depth].saved);
      } else if c == 'u' {
        ucs, stPos := 0, 0;
        Set(EscapeUnicode);
      } else {
        err, act := BadString, GotoOut;
      }
      k := Cursor(act, i, c, obj);
    }

    method CaseArray(c: char, i: nat, obj: JValue, ghost g: Tok) returns (k: Cursor)
      requires err == Success && Wf(g) && Reps(g, obj) && (g.top.state == Array || g.top.state == ArrayAfterSep)
      modifies this, stack
      ensures stack == old(stack) && charOffset == old(charOffset)
      ensures Made(StepArray(g, c), k, i, c)
    {
      hide ParentsOk, StepOk, Plain;
      if c == ']' {
        if stack[depth].state == ArrayAfterSep && cfg.strict {
          err := Unexpected;
          k := Cursor(GotoOut, i, c, obj);
        } else {
          SetWs(Finish);
          k := Cursor(Break, i, c, obj);
        }
      } else {
        k := OpenLevel(ArrayAdd, c, i, obj, g);
      }
    }

    /** depth++ and json_tokener_reset_level for the value of an element or a member. */
    method OpenLevel(s: State, c: char, i: nat, obj: JValue, ghost g: Tok) returns (k: Cursor)
      requires err == Success && Wf(g) && Reps(g, obj) && StateRank(g.top.state) == 10
      requires (s == ArrayAdd && g.top.current.JArray?) || (s == ObjValueAdd && g.top.current.JObject?)
      modifies this, stack
      ensures stack == old(stack) && charOffset == old(charOffset)
      ensures Made(Push(g, s), k, i, c)
    {
      hide Wf, StepOk, Plain;
      if depth + 1 >= cfg.maxDepth {
        err := Depth;
        k := Cursor(GotoOut, i, c, obj);
      } else {
        Set(s);
        depth := depth + 1;
        stack[depth] := RESET_LEVEL;
        assert stack[..depth] == g.below + [g.top.(state := s)];
        k := Cursor(RedoChar, i, c, obj);
      }
    }

    method CaseArrayAdd(c: char, i: nat, obj: JValue, ghost g: Tok) returns (k: Cursor)
      requires err == Success && Wf(g) && Reps(g, obj) && g.top.state == ArrayAdd
      modifies this, stack
      ensures stack == old(stack) && charOffset == old(charOffset)
      ensures Made(StepArrayAdd(g), k, i, c)
    {
      hide StepOk, Plain;
      stack[depth] := stack[depth].(current := JArray(stack[depth].current.elems + [obj]));
      SetWs(ArraySep);
      k := Cursor(RedoChar, i, c, obj);
    }

    method CaseArraySep(c: char, i: nat, obj: JValue, ghost g: Tok) returns (k: Cursor)
      requires err == Success && Wf(g) && Reps(g, obj) && g.top.state == ArraySep
      modifies this, stack
      ensures stack == old(stack) && charOffset == old(charOffset)
      ensures Made(StepSep(g, c, ']', ArrayAfterSep, BadArray), k, i, c)
    {
      hide ParentsOk, StepOk, Plain;
      if c == ']' {
        SetWs(Finish);
        k := Cursor(Break, i, c, obj);
      } else if c == ',' {
        SetWs(ArrayAfterSep);
        k := Cursor(Break, i, c, obj);
      } else {
        err := BadArray;
        k := Cursor(GotoOut, i, c, obj);
      }
    }

    method CaseObjSep(c: char, i: nat, obj: JValue, ghost g: Tok) returns (k: Cursor)
      requires err == Success && Wf(g) && Reps(g, obj) && g.top.state == ObjSep
      modifies this, stack
      ensures stack == old(stack) && charOffset == old(charOffset)
      ensures Made(StepSep(g, c, '}', FieldStartAfterSep, BadValueSep), k, i, c)
    {
      hide ParentsOk, StepOk, Plain;
      if c == '}' {
        SetWs(Finish);
        k := Cursor(Break, i, c, obj);
      } else if c == ',' {
        SetWs(FieldStartAfterSep);
        k := Cursor(Break, i, c, obj);
      } else {
        err := BadValueSep;
        k := Cursor(GotoOut, i, c, obj);
      }
    }

    method CaseFieldStart(c: char, i: nat, obj: JValue, ghost g: Tok) returns (k: Cursor)
      requires err == Success && Wf(g) && Reps(g, obj) && (g.top.state == FieldStart || g.top.state == FieldStartAfterSep)
      modifies this, stack
      ensures stack == old(stack) && charOffset == old(charOffset)
      ensures Made(StepFieldStart(g, c), k, i, c)
    {
      hide Wf, StepOk, Plain;
      var act := Break;
      if c == '}' {
        if stack[depth].state == FieldStartAfterSep && cfg.strict {
          err, act := Unexpected, GotoOut;
        } else {
          SetWs(Finish);
        }
      } else if c == '"' || c == '\'' {
        quote, pb := c, "";
        Set(Field);
      } else {
        err, act := BadKeyName, GotoOut;
      }
      k := Cursor(act, i, c, obj);
    }

    method CaseFieldEnd(c: char, i: nat, obj: JValue, ghost g: Tok) returns (k: Cursor)
      requires err == Success && Wf(g) && Reps(g, obj) && g.top.state == FieldEnd
      modifies this, stack
      ensures stack == old(stack) && charOffset == old(charOffset)
      ensures Made(if c == ':' then Next(g.WsThen(ObjValue), 1) else Fail(g, BadKeySep), k, i, c)
    {
      hide Wf;
      var act := Break;
      if c == ':' {
        SetWs(ObjValue);
      } else {
        err, act := BadKeySep, GotoOut;
      }
      k := Cursor(act, i, c, obj);
    }

    method CaseObjValue(c: char, i: nat, obj: JValue, ghost g: Tok) returns (k: Cursor)
      requires err == Success && Wf(g) && Reps(g, obj) && g.top.state == ObjValue
      modifies this, stack
      ensures stack == old(stack) && charOffset == old(charOffset)
      ensures Made(Push(g, ObjValueAdd), k, i, c)
    {
      hide ParentsOk, StepOk, Plain;
      k := OpenLevel(ObjValueAdd, c, i, obj, g);
    }

    method CaseObjValueAdd(c: char, i: nat, obj: JValue, ghost g: Tok) returns (k: Cursor)
      requires err == Success && Wf(g) && Reps(g, obj) && g.top.state == ObjValueAdd
      modifies this, stack
      ensures stack == old(stack) && charOffset == old(charOffset)
      ensures Made(StepObjValueAdd(g), k, i, c)
    {
      hide StepOk, Plain, AddMember;
      var l := stack[depth];
      stack[depth] := l.(current := JObject(AddMember(l.current.members, l.field, obj)), field := "");
      SetWs(ObjSep);
      k := Cursor(RedoChar, i, c, obj);
    }

    // ---------------------------------------------------------- cases with an inner loop

    /** The run that goes on as h has got to k, with the tokener holding g. */
    ghost predicate Ran(h: Halt, g: Tok, k: Cursor, buf: string)
      reads this, stack
    {
      && Wf(g) && Reps(g, k.obj) && k.pos <= |buf|
      && match k.act
         case GotoOut => h == Halt(g, k.pos, err, k.c == '\0')
         case RedoChar => k.pos < |buf| && k.c == buf[k.pos] && Run(g, buf, k.pos) == h
         case Break =>
           && k.pos < |buf| && k.c == buf[k.pos]
           && (if k.c == '\0' then h == Halt(g, k.pos + 1, Success, true) else Run(g, buf, k.pos + 1) == h)
    }

    /** A case that took one step has run as far as that step. */
    lemma MadeRan(g: Tok, k: Cursor, buf: string, i: nat)
      requires Wf(g) && i < |buf| && Made(Micro(g, buf, i), k, i, buf[i])
      ensures Ran(Run(g, buf, i), Micro(g, buf, i).t, k, buf)
      ensures k.act == RedoChar ==> Rank(Micro(g, buf, i).t) < Rank(g)
    {
      hide Micro, TopOk, ParentsOk, StateRank, Plain, Rank, Reps;
      RunStep(g, buf, i);
    }

    /** The buffer ends, or its last character was NUL, in the middle of a case. */
    method StopsAt(buf: string, j: nat, obj: JValue, ghost g: Tok, ghost h: Halt) returns (k: Cursor)
      requires 0 < j <= |buf| && (buf[j - 1] == '\0' || j == |buf|)
      requires Wf(g) && Reps(g, obj) && g.top.state != EatWs && g.top.state != EscapeUnicode
      requires h == if buf[j - 1] == '\0' then Halt(g, j, Success, true) else Run(g, buf, j)
      modifies this`err
      ensures Ran(h, g, k, buf) && k.pos == j && k.act == GotoOut
    {
      hide Run, Micro, Wf;
      err := if buf[j - 1] == '\0' then Success else Continue;
      RunEnd(g, buf);
      k := Cursor(GotoOut, j, buf[j - 1], obj);
    }

    method CaseEatWs(buf: string, i: nat, obj: JValue, ghost g: Tok) returns (k: Cursor, ghost g2: Tok)
      requires Wf(g) && Reps(g, obj) && g.top.state == EatWs && i < |buf| && err == Success
      modifies this, stack
      ensures stack == old(stack) && charOffset == old(charOffset)
      ensures Ran(Run(g, buf, i), g2, k, buf)
      ensures k.pos >= i && (k.act == RedoChar && k.pos == i ==> Rank(g2) < Rank(g))
      ensures k.act != GotoOut ==> err == Success && g2.gotHi == g.gotHi && g2.top.state != Number
    {
      hide Run, Micro, Wf, Rank, Plain, StepOk;
      ghost var h := Run(g, buf, i);
      var j := i;
      while IsSpace(buf[j])
        invariant i <= j < |buf| && Run(g, buf, j) == h
        invariant stack == old(stack) && Reps(g, obj) && err == Success && charOffset == old(charOffset)
        decreases |buf| - j
      {
        SkipSpace(g, buf, j);
        var c := buf[j];
        j := j + 1;
        if j == |buf| {
          err := if depth == 0 && stack[depth].saved == Finish then Success else Continue;
          RunEnd(g, buf);
          return Cursor(GotoOut, j, c, obj), g;
        }
      }
      k, g2 := EndWs(buf, j, obj, g);
    }

    /** The first character that is no white space. */
    method EndWs(buf: string, j: nat, obj: JValue, ghost g: Tok) returns (k: Cursor, ghost g2: Tok)
      requires Wf(g) && Reps(g, obj) && g.top.state == EatWs && j < |buf| && !IsSpace(buf[j])
      modifies this, stack
      ensures stack == old(stack) && charOffset == old(charOffset) && err == old(err)
      ensures Ran(Run(g, buf, j), g2, k, buf)
      ensures k.pos == j && k.act != GotoOut && (k.act == RedoChar ==> Rank(g2) < Rank(g))
      ensures g2.gotHi == g.gotHi && g2.top.state != Number
    {
      hide Run, Wf, StateRank, Plain, StepOk;
      var c := buf[j];
      SavedState(g);
      g2 := Micro(g, buf, j).t;
      RunStep(g, buf, j);
      if c == '/' && !cfg.strict {
        pb := [c];
        Set(CommentStart);
        k := Cursor(Break, j, c, obj);
      } else {
        Set(stack[depth].saved);
        k := Cursor(RedoChar, j, c, obj);
      }
    }

    method CaseInf(buf: string, i: nat, obj: JValue, ghost g: Tok) returns (k: Cursor, ghost g2: Tok)
      requires Wf(g) && Reps(g, obj) && g.top.state == Inf && i < |buf| && err == Success
      modifies this, stack
      ensures stack == old(stack) && charOffset == old(charOffset)
      ensures Ran(Run(g, buf, i), g2, k, buf)
      ensures k.pos >= i && (k.act == RedoChar && k.pos == i ==> Rank(g2) < Rank(g))
      ensures k.act != GotoOut ==> err == Success && g2.gotHi == g.gotHi && g2.top.state != Number
    {
      hide Run, Micro, Wf, StateRank, Plain, StepOk, ParentsOk, TopOk, InfWord, Lower;
      var j := i;
      g2 := g;
      var word := InfWord(cfg.strict);
      while stPos < 8
        invariant i <= j < |buf| && Wf(g2) && Run(g2, buf, j) == Run(g, buf, i)
        invariant stack == old(stack) && Reps(g2, obj) && err == Success && charOffset == old(charOffset)
        invariant g2.top == g.top && g2.gotHi == g.gotHi
        decreases |buf| - j
      {
        var c := if cfg.strict then buf[j] else Lower(buf[j]);
        InfLetter(g2, buf, j);
        if c != word[stPos] {
          k := RefuseLetter(buf, j, obj, g2, Run(g, buf, i));
          return;
        }
        g2 := g2.(stPos := stPos + 1);
        stPos := stPos + 1;
        j := j + 1;
        if j == |buf| {
          k := StopsAt(buf, j, obj, g2, Run(g2, buf, j));
          return;
        }
      }
      k, g2 := EndInf(buf, j, obj, g2);
    }

    method RefuseLetter(buf: string, j: nat, obj: JValue, ghost g: Tok, ghost h: Halt) returns (k: Cursor)
      requires Wf(g) && Reps(g, obj) && j < |buf| && h == Halt(g, j, Unexpected, buf[j] == '\0')
      modifies this`err
      ensures Ran(h, g, k, buf) && k.pos == j && k.act == GotoOut
    {
      hide Run, Wf;
      err := Unexpected;
      k := Cursor(GotoOut, j, buf[j], obj);
    }

    method EndInf(buf: string, j: nat, obj: JValue, ghost g: Tok) returns (k: Cursor, ghost g2: Tok)
      requires Wf(g) && Reps(g, obj) && g.top.state == Inf && j < |buf| && stPos >= 8
      modifies stack
      ensures Ran(Run(g, buf, j), g2, k, buf) && k.pos == j && k.act == RedoChar && Rank(g2) < Rank(g)
      ensures g2.gotHi == g.gotHi && g2.top.state != Number
    {
      hide Run, Micro, Wf, Rank;
      var v := JDouble(if |pb| > 0 && pb[0] == '-' then "-Infinity" else "Infinity");
      InfEnds(g, buf, j, v);
      SetValue(v);
      g2 := g.Value(v);
      k := Cursor(RedoChar, j, buf[j], obj);
    }

    method CaseComment(buf: string, i: nat, obj: JValue, ghost g: Tok) returns (k: Cursor, ghost g2: Tok)
      requires Wf(g) && Reps(g, obj) && (g.top.state == Comment || g.top.state == CommentEol)
      requires i < |buf| && err == Success
      modifies this, stack
      ensures stack == old(stack) && charOffset == old(charOffset)
      ensures Ran(Run(g, buf, i), g2, k, buf)
      ensures k.pos >= i && k.act != RedoChar
      ensures k.act != GotoOut ==> err == Success && g2.gotHi == g.gotHi && g2.top.state != Number
    {
      hide Run, Micro, Wf, StateRank, Plain, StepOk, ParentsOk, TopOk;
      var end := if stack[depth].state == Comment then '*' else '\n';
      var j := i;
      g2 := g;
      NoneCopied(g.pb, buf, i);
      while buf[j] != end
        invariant i <= j < |buf| && Wf(g2) && Run(g2, buf, j) == Run(g, buf, i)
        invariant stack == old(stack) && Reps(g, obj) && err == Success && charOffset == old(charOffset)
        invariant g2 == g.(pb := g.pb + buf[i..j])
        decreases |buf| - j
      {
        CopyComment(g2, buf, j);
        var c := buf[j];
        NextCopied(g.pb, buf, i, j);
        j := j + 1;
        g2 := g2.Append([c]);
        if c == '\0' || j == |buf| {
          pb := pb + buf[i..j];
          k := StopsAt(buf, j, obj, g2, Run(g, buf, i));
          return;
        }
      }
      pb := pb + buf[i..j];
      k, g2 := EndComment(buf, j, obj, g2);
    }

    method EndComment(buf: string, j: nat, obj: JValue, ghost g: Tok) returns (k: Cursor, ghost g2: Tok)
      requires Wf(g) && Reps(g, obj) && (g.top.state == Comment || g.top.state == CommentEol)
      requires j < |buf| && buf[j] == (if g.top.state == Comment then '*' else '\n')
      modifies this, stack
      ensures stack == old(stack) && charOffset == old(charOffset) && err == old(err)
      ensures Ran(Run(g, buf, j), g2, k, buf) && k.pos == j && k.act == Break && g2.gotHi == g.gotHi && g2.top.state != Number
    {
      hide Run, Wf, StateRank, Plain, StepOk, ParentsOk, TopOk;
      RunStep(g, buf, j);
      g2 := Micro(g, buf, j).t;
      if stack[depth].state == Comment {
        pb := pb + [buf[j]];
        Set(CommentEnd);
      } else {
        Set(EatWs);
      }
      k := Cursor(Break, j, buf[j], obj);
    }

    /** A string value or a key up to its end or its next backslash. */
    method CaseString(buf: string, i: nat, obj: JValue, ghost g: Tok) returns (k: Cursor, ghost g2: Tok)
      requires Wf(g) && Reps(g, obj) && (g.top.state == Str || g.top.state == Field)
      requires i < |buf| && err == Success
      modifies this, stack
      ensures stack == old(stack) && charOffset == old(charOffset)
      ensures Ran(Run(g, buf, i), g2, k, buf)
      ensures k.pos >= i && k.act != RedoChar
      ensures k.act != GotoOut ==> err == Success && g2.gotHi == g.gotHi && g2.top.state != Number
    {
      hide Run, Micro, Wf, StateRank, Plain, StepOk, ParentsOk, TopOk, CString;
      var j := i;
      g2 := g;
      NoneCopied(g.pb, buf, i);
      while buf[j] != quote && buf[j] != '\\'
        invariant i <= j < |buf| && Wf(g2) && Run(g2, buf, j) == Run(g, buf, i)
        invariant stack == old(stack) && Reps(g, obj) && err == Success && charOffset == old(charOffset)
        invariant g2 == g.(pb := g.pb + buf[i..j])
        decreases |buf| - j
      {
        CopyString(g2, buf, j);
        var c := buf[j];
        NextCopied(g.pb, buf, i, j);
        j := j + 1;
        g2 := g2.Append([c]);
        if c == '\0' || j == |buf| {
          pb := pb + buf[i..j];
          k := StopsAt(buf, j, obj, g2, Run(g, buf, i));
          return;
        }
      }
      pb := pb + buf[i..j];
      k, g2 := EndString(buf, j, obj, g2);
    }

    /** The closing quote or a backslash. */
    method EndString(buf: string, j: nat, obj: JValue, ghost g: Tok) returns (k: Cursor, ghost g2: Tok)
      requires Wf(g) && Reps(g, obj) && (g.top.state == Str || g.top.state == Field)
      requires j < |buf| && (buf[j] == g.quote || buf[j] == '\\')
      modifies this, stack
      ensures stack == old(stack) && charOffset == old(charOffset) && err == old(err)
      ensures Ran(Run(g, buf, j), g2, k, buf) && k.pos == j && k.act == Break && g2.gotHi == g.gotHi && g2.top.state != Number
    {
      hide Run, Wf, StateRank, Plain, StepOk, ParentsOk, TopOk, CString;
      RunStep(g, buf, j);
      g2 := Micro(g, buf, j).t;
      var l := stack[depth];
      if buf[j] == quote {
        if l.state == Str {
          SetValue(JString(pb));
        } else {
          stack[depth] := l.(field := CString(pb));
          SetWs(FieldEnd);
        }
      } else {
        stack[depth] := l.(state := StrEscape, saved := l.state);
      }
      k := Cursor(Break, j, buf[j], obj);
    }

    /** The checks on one character of a number, on the variables of the C loop. */
    method NumberChar(c: char, caseLen: nat, isExp: bool, negPos: nat, ghost g: Tok)
      returns (bad: bool, len: nat, exp: bool, neg: nat)
      requires g.dbl == dbl && g.caseLen == caseLen && g.isExp == isExp && g.negPos == negPos
      modifies this`dbl
      ensures bad == BadNumberChar(g, c)
      ensures bad ==> dbl == old(dbl)
      ensures !bad ==>
                var a := AfterNumberChar(g, c);
                a.dbl == dbl && a.caseLen == len && a.isExp == exp && a.negPos == neg
    {
      len, exp, neg, bad := caseLen + 1, isExp, negPos, true;
      if c == '.' {
        if dbl { return; }
        dbl := true;
      }
      if c == 'e' || c == 'E' {
        if isExp { return; }
        exp, dbl, neg := true, true, len + 1;
      }
      bad := c == '-' && len != neg;
    }

    method CaseNumber(buf: string, i: nat, obj: JValue, ghost g: Tok) returns (k: Cursor, ghost g2: Tok)
      requires Wf(g) && Reps(g, obj) && g.top.state == Number && i < |buf| && err == Success
      requires g.caseLen == 0 && !g.isExp && g.negPos == 1
      modifies this, stack
      ensures stack == old(stack) && charOffset == old(charOffset)
      ensures Ran(Run(g, buf, i), g2, k, buf)
      ensures k.pos >= i && k.act != Break && (k.act == RedoChar && k.pos == i ==> Rank(g2) < Rank(g))
      ensures k.act != GotoOut ==> err == Success && g2.gotHi == g.gotHi && g2.top.state != Number
    {
      hide Run, Micro, Wf, StateRank, Plain, StepOk, ParentsOk, TopOk, ParseInt64, IsNumberChar, BadNumberChar, Uncopied;
      var caseLen, isExp, negPos := 0, false, 1;
      var j := i;
      g2 := g;
      NoneCopied(g.pb, buf, i);
      while IsNumberChar(buf[j])
        invariant i <= j < |buf| && Wf(g2) && Run(g2, buf, j) == Run(g, buf, i)
        invariant stack == old(stack) && Reps(g2.(pb := g.pb), obj) && err == Success && charOffset == old(charOffset)
        invariant g2.pb == g.pb + buf[i..j] && caseLen == j - i
        invariant g2.caseLen == caseLen && g2.isExp == isExp && g2.negPos == negPos
        invariant g2.gotHi == g.gotHi && g2.top == g.top
        decreases |buf| - j
      {
        CopyNumber(g2, buf, j);
        var c := buf[j];
        NumberCharIsNotNul(c);
        var bad, len, exp, neg := NumberChar(c, caseLen, isExp, negPos, g2);
        if bad {
          k, g2 := RefuseNumber(buf, j, obj, g2, g.pb);
          return;
        }
        g2 := AfterNumberChar(g2, c);
        caseLen, isExp, negPos := len, exp, neg;
        NextCopied(g.pb, buf, i, j);
        j := j + 1;
        if j == |buf| {
          pb := pb + buf[i..j];
          k := StopsAt(buf, j, obj, g2, Run(g2, buf, j));
          return;
        }
      }
      pb := pb + buf[i..j];
      k, g2 := EndNumber(buf, j, caseLen, obj, g2);
    }

    /** A character that no number goes on with; what has been read is not copied. */
    method RefuseNumber(buf: string, j: nat, obj: JValue, ghost g: Tok, ghost was: string) returns (k: Cursor, ghost g2: Tok)
      requires j < |buf| && Reps(g.(pb := was, dbl := dbl), obj) && g.dbl == dbl && Wf(Uncopied(g))
      requires g.caseLen <= |g.pb| && g.pb[..|g.pb| - g.caseLen] == was
      modifies this`err
      ensures g2 == Uncopied(g) && Reps(g2, obj) && err == BadNumber && k == Cursor(GotoOut, j, buf[j], obj)
    {
      hide Wf;
      err := BadNumber;
      UncopiedIs(g, was);
      g2 := Uncopied(g);
      k := Cursor(GotoOut, j, buf[j], obj);
    }

    /** The part of the number case after its loop. */
    method EndNumber(buf: string, j: nat, caseLen: nat, obj: JValue, ghost g: Tok) returns (k: Cursor, ghost g2: Tok)
      requires Wf(g) && Reps(g, obj) && g.top.state == Number && j < |buf| && !IsNumberChar(buf[j])
      requires g.caseLen == caseLen && err == Success
      modifies this, stack
      ensures stack == old(stack) && charOffset == old(charOffset)
      ensures Ran(Run(g, buf, j), g2, k, buf)
      ensures k.pos == j && k.act != Break && (k.act == RedoChar ==> Rank(g2) < Rank(g))
      ensures k.act != GotoOut ==> err == Success && g2.gotHi == g.gotHi && g2.top.state != Number
    {
      hide Run, Micro, Wf, StateRank, StepOk, ParentsOk, TopOk, ParseInt64, IsNumberChar;
      var c := buf[j];
      NumberCase(g, buf, j);
      RunStep(g, buf, j);
      g2 := StepNumberEnd(g, c).t;
      k := Cursor(RedoChar, j, c, obj);
      if |pb| > 0 && pb[0] == '-' && caseLen <= 1 && (c == 'i' || c == 'I') {
        Set(Inf);
        stPos := 0;
        return;
      }
      var n := ParseInt64(pb);
      if !dbl && n.Some? && !(n.value != 0 && |pb| > 0 && pb[0] == '0' && cfg.strict) {
        SetValue(JInt(n.value));
      } else if dbl && cfg.isDouble(pb) {
        SetValue(JDouble(pb));
      } else {
        err := BadNumber;
        k := Cursor(GotoOut, j, c, obj);
      }
    }

    method CaseUnicode(buf: string, i: nat, obj: JValue, ghost g: Tok) returns (k: Cursor, ghost g2: Tok)
      requires Wf(g) && Reps(g, obj) && g.top.state == EscapeUnicode && i < |buf| && err == Success
      requires g.gotHi == 0
      modifies this, stack
      ensures stack == old(stack) && charOffset == old(charOffset)
      ensures Ran(Run(g, buf, i), g2, k, buf)
      ensures k.pos >= i && k.act != RedoChar
      ensures k.act != GotoOut ==> err == Success && g2.gotHi == 0 && g2.top.state != Number
    {
      hide Run, Micro, Wf, StateRank, Plain, StepOk, ParentsOk, TopOk, DecodeUnit, StepCodePoint, StepRan, IsHex;
      var gotHi := 0;
      var j := i;
      g2 := g;
      while true
        invariant i <= j < |buf| && Wf(g2) && Run(g2, buf, j) == Run(g, buf, i)
        invariant stack == old(stack) && Reps(g2, obj) && err == Success && charOffset == old(charOffset)
        invariant g2.top.state == EscapeUnicode && g2.gotHi == gotHi
        decreases |buf| - j
      {
        var c := buf[j];
        if !IsHex(c) || stPos >= 4 {
          k := RefuseDigit(buf, j, obj, g2);
          return;
        }
        ghost var d := TakeDigit(buf, j, obj, g2);
        if stPos == 4 {
          var again;
          k, again, gotHi, g2 := CodePoint(buf, j, gotHi, obj, d, Run(g, buf, i));
          if !again { return; }
          j := k.pos;
        } else {
          g2 := d;
          j := j + 1;
          if j == |buf| {
            k, g2 := DigitsEnd(buf, c, gotHi, obj, g2);
            return;
          }
        }
      }
    }

    method TakeDigit(buf: string, j: nat, obj: JValue, ghost g: Tok) returns (ghost d: Tok)
      requires Wf(g) && Reps(g, obj) && g.top.state == EscapeUnicode && j < |buf| && IsHex(buf[j]) && stPos < 4
      modifies this`ucs, this`stPos
      ensures Wf(d) && Reps(d, obj) && d.top == g.top && d.gotHi == g.gotHi && stPos == old(stPos) + 1 && buf[j] != '\0'
      ensures stPos < 4 ==> Run(g, buf, j) == Run(d, buf, j + 1)
      ensures stPos == 4 ==> StepRan(StepCodePoint(d, buf, j), buf, j, Run(g, buf, j))
    {
      hide Run, Micro, Wf, StateRank, Plain, StepOk, ParentsOk, TopOk, StepCodePoint, StepRan;
      GoodDigit(g, buf, j);
      ucs := ucs + HexVal(buf[j]) * Shift(stPos);
      stPos := stPos + 1;
      d := g.(ucs := ucs, stPos := stPos);
    }

    /** A character that is no digit, or one too many. */
    method RefuseDigit(buf: string, j: nat, obj: JValue, ghost g: Tok) returns (k: Cursor)
      requires Wf(g) && Reps(g, obj) && g.top.state == EscapeUnicode && j < |buf|
      requires !IsHex(buf[j]) || stPos >= 4
      modifies this`err
      ensures Ran(Run(g, buf, j), g, k, buf) && k.pos == j && k.act == GotoOut
    {
      hide Run, Micro, Wf, StateRank, Plain, StepOk, ParentsOk, TopOk;
      BadDigit(g, buf, j);
      err := if IsHex(buf[j]) then Undefined else BadString;
      k := Cursor(GotoOut, j, buf[j], obj);
    }

    /** The buffer ends within the digits; c is the last character. */
    method DigitsEnd(buf: string, c: char, gotHi: nat, obj: JValue, ghost g: Tok) returns (k: Cursor, ghost g2: Tok)
      requires Wf(g) && Reps(g, obj) && g.top.state == EscapeUnicode && g.gotHi == gotHi
      requires c != '\0'
      modifies this`err, this`pb
      ensures Ran(Run(g, buf, |buf|), g2, k, buf) && k.pos == |buf| && k.act == GotoOut
    {
      hide Run, Micro, Wf, StateRank, Plain, StepOk, ParentsOk, TopOk;
      err := Continue;
      RunEnd(g, buf);
      g2 := g;
      if gotHi != 0 {
        pb := pb + REPLACEMENT;
        g2 := g.Append(REPLACEMENT);
      }
      k := Cursor(GotoOut, |buf|, c, obj);
    }

    /** The fourth digit: append the code point, or remember a high surrogate and go on
        with the escape after it. */
    method CodePoint(buf: string, j: nat, gotHi: nat, obj: JValue, ghost d: Tok, ghost h: Halt)
      returns (k: Cursor, again: bool, hi: nat, ghost g2: Tok)
      requires Wf(d) && Reps(d, obj) && d.top.state == EscapeUnicode && d.gotHi == gotHi
      requires j < |buf| && IsHex(buf[j]) && StepRan(StepCodePoint(d, buf, j), buf, j, h)
      modifies this, stack
      ensures stack == old(stack) && charOffset == old(charOffset)
      ensures again ==> err == old(err) && j < k.pos < |buf| && Wf(g2) && Reps(g2, obj) && Run(g2, buf, k.pos) == h
      ensures again ==> g2.top.state == EscapeUnicode && g2.gotHi == hi
      ensures !again ==> Ran(h, g2, k, buf) && k.pos >= j && k.act != RedoChar
      ensures !again && k.act != GotoOut ==> err == old(err) && g2.gotHi == 0 && g2.top.state != Number
    {
      hide Run, Micro, Wf, StateRank, Plain, ParentsOk, TopOk, DecodeUnit;
      EscapeSaved(d);
      var c := buf[j];
      k, again, hi := Cursor(Break, j, c, obj), false, 0;
      g2 := StepCodePoint(d, buf, j).t;
      match DecodeUnit(gotHi, ucs)
      case Bytes(bytes) =>
        pb := pb + bytes;
        Set(stack[depth].saved);
      case HighHalf(bytes, u) =>
        if !EscapeAhead(buf, j) {
          pb := pb + (bytes + REPLACEMENT);
          Set(stack[depth].saved);
        } else if j + 3 == |buf| {
          pb := pb + (bytes + REPLACEMENT);
          err := Continue;
          k := Cursor(GotoOut, j + 3, c, obj);
        } else {
          pb := pb + bytes;
          hi, ucs, stPos, again := u, 0, 0, true;
          k := Cursor(Break, j + 3, c, obj);
        }
    }

    // ---------------------------------------------------------- the main loop

    /** The cases that look at one character only. */
    method OneChar(buf: string, i: nat, obj: JValue, ghost g: Tok) returns (k: Cursor)
      requires Wf(g) && Reps(g, obj) && i < |buf| && err == Success && AtEntry(g)
      requires !Loops(g.top.state)
      modifies this, stack
      ensures stack == old(stack) && charOffset == old(charOffset)
      ensures Made(Micro(g, buf, i), k, i, buf[i])
      ensures k.act != GotoOut ==> err == Success && AtEntry(Micro(g, buf, i).t)
    {
      hide ParentsOk, TopOk, StateRank, StepOk, StepStart, StepFinish, StepNull, StepBoolean, StepCommentStart, StepCommentEnd, StepEscape,
           StepArray, StepArrayAdd, StepSep, StepFieldStart, Push, StepObjValueAdd;
      var c := buf[i];
      if stack[depth].state == StrEscape { EscapeEntry(g, c); }
      match stack[depth].state
      case Start => k := CaseStart(c, i, obj, g);
      case Finish => k := CaseFinish(c, i, obj, g);
      case Null => k := CaseNull(c, i, obj, g);
      case Boolean => k := CaseBoolean(c, i, obj, g);
      case CommentStart => k := CaseCommentMark(c, i, obj, g);
      case CommentEnd => k := CaseCommentMark(c, i, obj, g);
      case StrEscape => k := CaseEscape(c, i, obj, g);
      case Array => k := CaseArray(c, i, obj, g);
      case ArrayAfterSep => k := CaseArray(c, i, obj, g);
      case ArrayAdd => k := CaseArrayAdd(c, i, obj, g);
      case ArraySep => k := CaseArraySep(c, i, obj, g);
      case FieldStart => k := CaseFieldStart(c, i, obj, g);
      case FieldStartAfterSep => k := CaseFieldStart(c, i, obj, g);
      case FieldEnd => k := CaseFieldEnd(c, i, obj, g);
      case ObjValue => k := CaseObjValue(c, i, obj, g);
      case ObjValueAdd => k := CaseObjValueAdd(c, i, obj, g);
      case ObjSep => k := CaseObjSep(c, i, obj, g);
    }

    /** One pass through the switch. */
    method Switch(buf: string, i: nat, obj: JValue, ghost g: Tok) returns (k: Cursor, ghost g2: Tok)
      requires Wf(g) && Reps(g, obj) && i < |buf| && err == Success && AtEntry(g)
      modifies this, stack
      ensures stack == old(stack) && charOffset == old(charOffset)
      ensures Ran(Run(g, buf, i), g2, k, buf)
      ensures k.pos >= i && (k.act == RedoChar && k.pos == i ==> Rank(g2) < Rank(g))
      ensures k.act != GotoOut ==> err == Success && AtEntry(g2)
    {
      hide Run, Micro, Wf, StateRank;
      match stack[depth].state
      case EatWs => k, g2 := CaseEatWs(buf, i, obj, g);
      case Inf => k, g2 := CaseInf(buf, i, obj, g);
      case Comment => k, g2 := CaseComment(buf, i, obj, g);
      case CommentEol => k, g2 := CaseComment(buf, i, obj, g);
      case Str => k, g2 := CaseString(buf, i, obj, g);
      case Field => k, g2 := CaseString(buf, i, obj, g);
      case Number => k, g2 := CaseNumber(buf, i, obj, g);
      case EscapeUnicode => k, g2 := CaseUnicode(buf, i, obj, g);
      case _ =>
        g2 := Micro(g, buf, i).t;
        k := OneChar(buf, i, obj, g);
        MadeRan(g, k, buf, i);
    }

    /** The loop of json_tokener_parse_ex, from PEEK_CHAR to the label out.  nul says
        whether the last character looked at was NUL. */
    method MainLoop(buf: string, ghost g0: Tok) returns (nul: bool, ghost g: Tok)
      requires Wf(g0) && Reps(g0, JNull) && err == Success && AtEntry(g0)
      modifies this, stack
      ensures stack == old(stack) && depth < stack.Length == cfg.maxDepth
      ensures Wf(g) && Reps(g, g.obj)
      ensures Run(g0, buf, 0) == Halt(g, charOffset, err, nul)
    {
      hide Run, Wf, Rank;
      ghost var h := Run(g0, buf, 0);
      var obj, i, redo := JNull, 0, false;
      g, nul := g0, false;
      while true
        invariant stack == old(stack) && err == Success && i <= |buf| && (redo ==> i < |buf|)
        invariant Wf(g) && Reps(g, obj) && AtEntry(g) && Run(g, buf, i) == h
        decreases |buf| - i, Rank(g)
      {
        if !redo && i == |buf| {
          var done := depth == 0 && stack[depth].state == EatWs && stack[depth].saved == Finish;
          err := if done then Success else Continue;
          charOffset := i;
          RunEnd(g, buf);
          return;
        }
        var k, g2 := Switch(buf, i, obj, g);
        g, obj := g2, k.obj;
        if k.act == GotoOut {
          charOffset, nul := k.pos, k.c == '\0';
          return;
        }
        i, redo := k.pos, k.act == RedoChar;
        if k.act == Break {
          i := i + 1;
          if k.c == '\0' {
            charOffset, nul := i, true;
            return;
          }
        }
      }
    }

    /** json_tokener_parse_ex with an explicit length. */
    method ParseEx(buf: string) returns (value: JValue)
      requires Valid()
      modifies this, stack
      ensures stack == old(stack) && depth < stack.Length == cfg.maxDepth
      ensures var r := Tokener.ParseEx(old(Snapshot()), buf);
              && value == r.value && err == r.err && charOffset == r.off
              && Snapshot() == StartCall(r.t)
    {
      hide Run, Wf, Micro;
      charOffset, err := 0, Success;
      ghost var g0 := Snapshot();
      assert g0 == StartCall(old(Snapshot()));
      var nul, g := MainLoop(buf, g0);
      value := Out(nul, g);
    }

    /** The label out: the last checks, and the value; on success every level is cleared. */
    method Out(nul: bool, ghost g: Tok) returns (value: JValue)
      requires depth < stack.Length == cfg.maxDepth && Reps(g, g.obj)
      modifies this`err, stack
      ensures var r := Conclude(Halt(g, charOffset, old(err), nul));
              && value == r.value && err == r.err && charOffset == r.off && Snapshot() == StartCall(r.t)
    {
      var top := stack[depth];
      if !nul && top.state == Finish && depth == 0 && cfg.strict { err := Unexpected; }
      if nul && top.state != Finish && top.saved != Finish { err := Eof; }
      value := JNull;
      if err == Success {
        value := top.current;
        ClearLevels();
      }
    }

    method ClearLevels()
      requires depth < stack.Length
      modifies stack
      ensures stack[..depth] == ResetLevels(depth) && stack[depth] == RESET_LEVEL
    {
      var ii := depth;
      stack[ii] := RESET_LEVEL;
      while ii > 0
        modifies stack
        invariant ii <= depth
        invariant forall l | ii <= l <= depth :: stack[l] == RESET_LEVEL
      {
        ii := ii - 1;
        stack[ii] := RESET_LEVEL;
      }
    }

    /** json_tokener_reset: usable again after an error. */
    method Reset()
      requires depth < stack.Length == cfg.maxDepth
      modifies this, stack
      ensures Valid() && Snapshot().below == [] && Snapshot().top == RESET_LEVEL && err == Success
      ensures stack == old(stack) && pb == old(pb)
    {
      var i := depth;
      stack[i] := RESET_LEVEL;
      while i > 0
        modifies stack
        invariant i <= depth && stack[i] == RESET_LEVEL
      {
        i := i - 1;
        stack[i] := RESET_LEVEL;
      }
      depth, err := 0, Success;
    }
  }

  /** The states whose case has an inner loop. */
  predicate Loops(s: State) {
    s.EatWs? || s.Inf? || s.Comment? || s.CommentEol? || s.Str? || s.Field? || s.Number? || s.EscapeUnicode?
  }

  /** The locals of the number and escape cases are as at the start of those cases. */
  predicate AtEntry(g: Tok) {
    g.gotHi == 0 && (g.top.state == Number ==> g.caseLen == 0 && !g.isExp && g.negPos == 1)
  }

  lemma SavedState(g: Tok)
    requires Wf(g) && g.top.state == EatWs
    ensures g.top.saved != Number
  {
  }

  lemma EscapeSaved(g: Tok)
    requires Wf(g) && (g.top.state == EscapeUnicode || g.top.state == StrEscape)
    ensures g.top.saved != Number
  {
  }

  lemma EscapeEntry(g: Tok, c: char)
    requires Wf(g) && g.top.state == StrEscape && g.gotHi == 0
    ensures AtEntry(StepEscape(g, c).t)
  {
    hide ParentsOk, StateRank, StepOk;
  }

  /** The run h went on with the step s at j. */
  ghost predicate StepRan(s: Step, buf: string, j: nat, h: Halt) {
    && j < |buf| && Wf(s.t)
    && match s
       case Redo(u) => Run(u, buf, j) == h
       case Out(u, n, e) => h == Halt(u, j + n, e, buf[j] == '\0')
       case Next(u, n) =>
         j + n <= |buf| && h == if buf[j] == '\0' then Halt(u, j + n, Success, true) else Run(u, buf, j + n)
  }

  lemma BadDigit(g: Tok, buf: string, j: nat)
    requires Wf(g) && g.top.state == EscapeUnicode && j < |buf| && (!IsHex(buf[j]) || g.stPos >= 4)
    ensures Run(g, buf, j) == Halt(g, j, if IsHex(buf[j]) then Undefined else BadString, buf[j] == '\0')
  {
    hide Run, Wf, StateRank, Plain, StepOk, ParentsOk, TopOk, StepCodePoint;
    RunStep(g, buf, j);
  }

  lemma GoodDigit(g: Tok, buf: string, j: nat)
    requires Wf(g) && g.top.state == EscapeUnicode && j < |buf| && IsHex(buf[j]) && g.stPos < 4
    ensures var d := g.(ucs := g.ucs + HexVal(buf[j]) * Shift(g.stPos), stPos := g.stPos + 1);
            && Wf(d)
            && (d.stPos < 4 ==> Run(g, buf, j) == Run(d, buf, j + 1))
            && (d.stPos == 4 ==> StepRan(StepCodePoint(d, buf, j), buf, j, Run(g, buf, j)))
  {
    hide Run, StateRank, Plain, StepOk, ParentsOk, TopOk, StepCodePoint;
    RunStep(g, buf, j);
  }

  /** What a run does with one character that is only copied. */
  ghost predicate Copies(g: Tok, g2: Tok, buf: string, j: nat) {
    && j < |buf| && Wf(g) && Wf(g2)
    && Run(g, buf, j) == if buf[j] == '\0' then Halt(g2, j + 1, Success, true) else Run(g2, buf, j + 1)
  }

  lemma CopyString(g: Tok, buf: string, j: nat)
    requires Wf(g) && j < |buf| && (g.top.state == Str || g.top.state == Field)
    requires buf[j] != g.quote && buf[j] != '\\'
    ensures Copies(g, g.Append([buf[j]]), buf, j)
  {
    hide Run, Wf, StateRank, Plain, StepOk, ParentsOk, TopOk, CString;
    RunStep(g, buf, j);
  }

  lemma CopyComment(g: Tok, buf: string, j: nat)
    requires Wf(g) && j < |buf|
    requires (g.top.state == Comment && buf[j] != '*') || (g.top.state == CommentEol && buf[j] != '\n')
    ensures Copies(g, g.Append([buf[j]]), buf, j)
  {
    hide Run, Wf, StateRank, Plain, StepOk, ParentsOk, TopOk, CString;
    RunStep(g, buf, j);
  }

  lemma NoneCopied(pb: string, buf: string, i: nat)
    requires i <= |buf|
    ensures pb + buf[i..i] == pb
  {
  }

  lemma NextCopied(pb: string, buf: string, i: nat, j: nat)
    requires i <= j < |buf|
    ensures pb + buf[i..j + 1] == pb + buf[i..j] + [buf[j]]
  {
  }

  lemma SkipSpace(g: Tok, buf: string, j: nat)
    requires Wf(g) && j < |buf| && g.top.state == EatWs && IsSpace(buf[j])
    ensures Run(g, buf, j) == Run(g, buf, j + 1)
  {
    hide Run, Wf, StateRank, Plain, StepOk;
    RunStep(g, buf, j);
  }

  lemma InfLetter(g: Tok, buf: string, j: nat)
    requires Wf(g) && j < |buf| && g.top.state == Inf && g.stPos < 8
    ensures var c := if g.cfg.strict then buf[j] else Lower(buf[j]);
            if c != InfWord(g.cfg.strict)[g.stPos] then Run(g, buf, j) == Halt(g, j, Unexpected, buf[j] == '\0')
            else buf[j] != '\0' && Wf(g.(stPos := g.stPos + 1)) && Run(g, buf, j) == Run(g.(stPos := g.stPos + 1), buf, j + 1)
  {
    hide Run, StateRank, Plain, StepOk, ParentsOk, TopOk;
    RunStep(g, buf, j);
  }

  lemma InfEnds(g: Tok, buf: string, j: nat, v: JValue)
    requires Wf(g) && j < |buf| && g.top.state == Inf && g.stPos >= 8
    requires v == JDouble(if |g.pb| > 0 && g.pb[0] == '-' then "-Infinity" else "Infinity")
    ensures Wf(g.Value(v)) && Run(g, buf, j) == Run(g.Value(v), buf, j) && Rank(g.Value(v)) < Rank(g)
  {
    hide Run, StateRank, Plain, StepOk, ParentsOk, TopOk, Rank, Wf;
    RunStep(g, buf, j);
  }

  lemma NumberCase(g: Tok, buf: string, j: nat)
    requires Wf(g) && j < |buf| && g.top.state == Number && !IsNumberChar(buf[j])
    ensures Micro(g, buf, j) == StepNumberEnd(g, buf[j])
  {
    hide Wf, StateRank, Plain, StepOk, ParentsOk, TopOk, StepNumberEnd;
  }

  lemma UncopiedIs(g: Tok, pb: string)
    requires g.caseLen <= |g.pb| && g.pb[..|g.pb| - g.caseLen] == pb
    ensures Uncopied(g) == g.(pb := pb)
  {
  }

  lemma CopyNumber(g: Tok, buf: string, j: nat)
    requires Wf(g) && j < |buf| && g.top.state == Number && IsNumberChar(buf[j])
    ensures !BadNumberChar(g, buf[j]) ==> Copies(g, AfterNumberChar(g, buf[j]), buf, j)
    ensures BadNumberChar(g, buf[j]) ==>
      Wf(Uncopied(g)) && Run(g, buf, j) == Halt(Uncopied(g), j, BadNumber, buf[j] == '\0')
  {
    hide Run, Wf, StateRank, Plain, StepOk, ParentsOk, TopOk, ParseInt64;
    RunStep(g, buf, j);
  }

  lemma NumberCharIsNotNul(c: char)
    requires IsNumberChar(c)
    ensures c != '\0' && !IsSpace(c)
  {
  }

  lemma RunEnd(g: Tok, buf: string)
    requires Wf(g)
    ensures Run(g, buf, |buf|) == AtEnd(g, |buf|)
  {
  }
}
