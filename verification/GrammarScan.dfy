/** The tokens that a run of the tokener which succeeds has read: white space and comments,
    strings, words and numbers of the grammar. */
module GrammarScan {
  import opened Decimals
  import opened JsonValue
  import opened Sequences
  import opened Tokener
  import opened Grammar
  import opened RoundTrip
  import opened GrammarStrings
  import opened GrammarParse
  import Quirks
  import Unicode

  // ------------------------------------------------------------ runs that succeed

  /** The run from here succeeds, and not because of a NUL inside a comment. */
  ghost predicate Wins(t: Tok, buf: string, i: nat) {
    && Wf(t) && i <= |buf|
    && var h := Run(t, buf, i); Conclude(h).err == Success && !IsCommentState(h.t.top.state)
  }

  /** Not at the end of the outermost value. */
  predicate Inside(t: Tok) {
    t.top.state != Finish && !(t.top.state == EatWs && t.top.saved == Finish && t.below == [])
  }

  /** Same run, from another state and place. */
  lemma SameRun(t: Tok, buf: string, i: nat, u: Tok, j: nat)
    requires Wins(t, buf, i) && Wf(u) && j <= |buf|
    requires Run(t, buf, i) == Run(u, buf, j)
    ensures Wins(u, buf, j)
  {
    hide Run, Wf;
  }

  lemma OutIsError(t: Tok, buf: string, i: nat)
    requires Wf(t) && i < |buf| && t.top.state != Finish && Micro(t, buf, i).Out?
    ensures Micro(t, buf, i).err != Success
  {
    hide TopOk, ParentsOk, StateRank, StepOk, Plain, Matches, DecodeUnit, CString, Unescaped, NumberValue;
  }

  lemma EndFails(t: Tok, buf: string)
    requires Wf(t) && Inside(t)
    ensures Conclude(Run(t, buf, |buf|)).err != Success
  {
    hide TopOk, ParentsOk;
  }

  /** A step inside a run that succeeds. */
  lemma WinStep(t: Tok, buf: string, i: nat)
    requires Wins(t, buf, i) && Inside(t)
    ensures i < |buf| && !Micro(t, buf, i).Out?
    ensures match Micro(t, buf, i)
            case Redo(u) => Wins(u, buf, i) && Run(t, buf, i) == Run(u, buf, i)
            case Next(u, n) => buf[i] != '\0' && i + n <= |buf| && Wins(u, buf, i + n) && Run(t, buf, i) == Run(u, buf, i + n)
            case Out(_, _, _) => true
  {
    hide Run, Micro, Wf, StepOk, Plain, TopOk, ParentsOk, StateRank, IsCommentState;
    if i == |buf| {
      EndFails(t, buf);
    } else {
      RunStep(t, buf, i);
      match Micro(t, buf, i)
      case Redo(_) =>
      case Out(_, _, _) => OutIsError(t, buf, i);
      case Next(_, _) => if buf[i] == '\0' { Quirks.NextState(t, buf, i); }
    }
  }

  // ------------------------------------------------------------ between tokens

  /** A character that is skipped between tokens, or starts a comment. */
  predicate Skipped(c: char, strict: bool) { IsSpace(c) || (c == '/' && !strict) }

  lemma EatWsCase(t: Tok, buf: string, i: nat)
    requires Wf(t) && t.top.state == EatWs && i < |buf|
    ensures Micro(t, buf, i) == if IsSpace(buf[i]) then Next(t, 1)
                                else if buf[i] == '/' && !t.cfg.strict then Next(t.(pb := "/").To(CommentStart), 1)
                                else Redo(t.To(t.top.saved))
  {
    hide TopOk, ParentsOk, StateRank, StepOk, Plain;
  }

  /** From the state before a token to the token's first character. */
  lemma AtToken(t: Tok, buf: string, i: nat)
    requires Wf(t) && t.top.state == EatWs && i < |buf| && !Skipped(buf[i], t.cfg.strict)
    ensures Wf(t.To(t.top.saved)) && Run(t, buf, i) == Run(t.To(t.top.saved), buf, i)
  {
    hide Run, Micro, Wf;
    EatWsCase(t, buf, i);
    RunRedo(t, buf, i, t.To(t.top.saved));
  }

  lemma OneThen(buf: string, i: nat, r: string)
    requires i < |buf| && At(buf, i + 1, r)
    ensures At(buf, i, [buf[i]] + r)
  {
    assert buf[i..i + 1 + |r|] == [buf[i]] + buf[i + 1..i + 1 + |r|];
  }

  lemma OneAt(buf: string, i: nat)
    requires i < |buf|
    ensures At(buf, i, [buf[i]])
    ensures i + 1 < |buf| ==> At(buf, i, [buf[i], buf[i + 1]])
  {
  }

  lemma JoinAt(buf: string, i: nat, x: string, y: string)
    requires At(buf, i, x) && At(buf, i + |x|, y)
    ensures At(buf, i, x + y)
  {
    assert buf[i..i + |x + y|] == buf[i..i + |x|] + buf[i + |x|..i + |x| + |y|];
  }

  /** The rest of a comment that ends with a star and a slash. */
  lemma {:induction false} BlockSound(t: Tok, buf: string, i: nat) returns (body: string)
    requires Wins(t, buf, i) && t.top.state == Comment
    ensures InBlock(body, false) && At(buf, i, body + "*/")
    decreases |buf| - i
  {
    hide Run, Conclude, Micro, Wf, At;
    WinStep(t, buf, i);
    CommentCases(t, buf, i);
    var t1 := Micro(t, buf, i).t;
    if buf[i] != '*' {
      body := BlockSound(t1, buf, i + 1);
      OneThen(buf, i, body + "*/");
      body := MoreBody(buf[i], body);
    } else {
      WinStep(t1, buf, i + 1);
      CommentCases(t1, buf, i + 1);
      if buf[i + 1] == '/' {
        OneAt(buf, i);
        body := "";
        assert ['*', '/'] == "" + "*/";
      } else {
        body := BlockSound(Micro(t1, buf, i + 1).t, buf, i + 2);
        OneThen(buf, i + 1, body + "*/");
        OneThen(buf, i, [buf[i + 1]] + (body + "*/"));
        body := StarBody(buf[i + 1], body);
      }
    }
  }

  lemma MoreBody(c: char, body: string) returns (r: string)
    requires c != '*' && c != '\0' && InBlock(body, false)
    ensures InBlock(r, false) && r + "*/" == [c] + (body + "*/")
  {
    r := [c] + body;
    assert r[1..] == body;
  }

  lemma StarBody(c: char, body: string) returns (r: string)
    requires c != '/' && c != '\0' && InBlock(body, false)
    ensures InBlock(r, false) && r + "*/" == ['*'] + ([c] + (body + "*/"))
  {
    r := ['*', c] + body;
    assert r[1..] == [c] + body && r[1..][1..] == body;
    assert InBlock(r[1..], true);
  }

  /** The rest of a comment that ends with its line. */
  lemma {:induction false} EolSound(t: Tok, buf: string, i: nat) returns (body: string)
    requires Wins(t, buf, i) && t.top.state == CommentEol
    ensures '\n' !in body && '\0' !in body && At(buf, i, body + "\n")
    decreases |buf| - i
  {
    hide Run, Conclude, Micro, Wf, At;
    WinStep(t, buf, i);
    CommentCases(t, buf, i);
    if buf[i] == '\n' {
      OneAt(buf, i);
      body := "";
      assert ['\n'] == "" + "\n";
    } else {
      body := EolSound(Micro(t, buf, i).t, buf, i + 1);
      OneThen(buf, i, body + "\n");
      assert [buf[i]] + body + "\n" == [buf[i]] + (body + "\n");
      body := [buf[i]] + body;
    }
  }

  /** A comment. */
  lemma CommentSound(t: Tok, buf: string, i: nat) returns (f: Filler)
    requires Wins(t, buf, i) && t.top.state == CommentStart && !t.cfg.strict && i > 0 && buf[i - 1] == '/'
    ensures LegalFiller(f, false) && At(buf, i - 1, FillerText(f))
  {
    hide Run, Conclude, Micro, Wf, At, InBlock;
    WinStep(t, buf, i);
    CommentCases(t, buf, i);
    var t1 := Micro(t, buf, i).t;
    OneAt(buf, i - 1);
    if buf[i] == '*' {
      var body := BlockSound(t1, buf, i + 1);
      assert ['/', '*'] == "/*";
      JoinAt(buf, i - 1, "/*", body + "*/");
      f := Block(body);
    } else {
      var body := EolSound(t1, buf, i + 1);
      assert ['/', '/'] == "//";
      JoinAt(buf, i - 1, "//", body + "\n");
      f := ToEol(body);
    }
  }

  /** One white space character or comment. */
  lemma FillerSound(t: Tok, buf: string, i: nat) returns (f: Filler)
    requires Wins(t, buf, i) && t.top.state == EatWs && i < |buf| && Skipped(buf[i], t.cfg.strict)
    ensures LegalFiller(f, t.cfg.strict) && At(buf, i, FillerText(f))
  {
    hide Run, Conclude, Micro, Wf, At, InBlock;
    EatWsCase(t, buf, i);
    OneAt(buf, i);
    if IsSpace(buf[i]) {
      f := Ws(buf[i]);
    } else {
      var t1 := t.(pb := "/").To(CommentStart);
      RunNext(t, buf, i, t1, 1);
      SameRun(t, buf, i, t1, i + 1);
      f := CommentSound(t1, buf, i + 1);
    }
  }

  lemma OneMoreFiller(buf: string, i: nat, f: Filler, gap: Gap, strict: bool)
    requires LegalFiller(f, strict) && LegalGap(gap, strict) && At(buf, i, FillerText(f)) && At(buf, i + |FillerText(f)|, Filling(gap))
    ensures LegalGap([f] + gap, strict) && At(buf, i, Filling([f] + gap)) && |Filling([f] + gap)| == |FillerText(f)| + |Filling(gap)|
    ensures forall pb :: PbAfter(pb, [f] + gap) == PbAfter(PbAfter(pb, [f]), gap)
  {
    hide FillerText, LegalFiller;
    var all := [f] + gap;
    assert all[0] == f && all[1..] == gap;
    JoinAt(buf, i, FillerText(f), Filling(gap));
    forall pb ensures PbAfter(pb, all) == PbAfter(PbAfter(pb, [f]), gap) {
      PbNext(pb, all);
    }
  }

  /** Everything up to the next token, or the end. */
  lemma {:induction false} GapSound(t: Tok, buf: string, i: nat) returns (gap: Gap, u: Tok)
    requires Wins(t, buf, i) && t.top.state == EatWs
    ensures LegalGap(gap, t.cfg.strict) && At(buf, i, Filling(gap)) && u == t.(pb := PbAfter(t.pb, gap))
    ensures var j := i + |Filling(gap)|;
            && j <= |buf| && Wins(u, buf, j) && Run(t, buf, i) == Run(u, buf, j)
            && (if j == |buf| then !Inside(t) else !Skipped(buf[j], t.cfg.strict) && Wins(u.To(u.top.saved), buf, j))
    decreases |buf| - i
  {
    hide Run, Conclude, Micro, Wf, At, Filling, FillerText, LegalFiller, LegalGap, PbAfter, Skipped;
    if i == |buf| || !Skipped(buf[i], t.cfg.strict) {
      gap, u := [], t;
      NoFilling(t.pb, "");
      NothingHere(buf, i);
      NoGap(t.cfg.strict);
      if i == |buf| {
        if Inside(t) { EndFails(t, buf); }
      } else {
        AtToken(t, buf, i);
        SameRun(t, buf, i, t.To(t.top.saved), i);
      }
    } else {
      var f := FillerSound(t, buf, i);
      var t1 := SkipOne(t, buf, i, f);
      AtInside(buf, i, FillerText(f));
      SameRun(t, buf, i, t1, i + |FillerText(f)|);
      gap, u := GapSound(t1, buf, i + |FillerText(f)|);
      OneMoreFiller(buf, i, f, gap, t.cfg.strict);
      gap := [f] + gap;
    }
  }

  lemma NoGap(strict: bool)
    ensures LegalGap([], strict)
  {
  }

  /** Up to the next token inside the outermost value. */
  lemma InnerGap(t: Tok, buf: string, i: nat) returns (gap: Gap, u: Tok)
    requires Wins(t, buf, i) && t.top.state == EatWs && Inside(t)
    ensures LegalGap(gap, t.cfg.strict) && At(buf, i, Filling(gap)) && u == t.(pb := u.pb).To(t.top.saved)
    ensures var j := i + |Filling(gap)|; j < |buf| && !Skipped(buf[j], t.cfg.strict) && Wins(u, buf, j)
  {
    hide Run, Conclude, Wf, At, Filling, LegalGap, PbAfter, Skipped;
    var v;
    gap, v := GapSound(t, buf, i);
    u := v.To(v.top.saved);
  }

  // ------------------------------------------------------------ strings and keys

  /** The pieces that have been found, with one more before them. */
  lemma OneMore(buf: string, i: nat, p: Part, ps: seq<Part>, quote: char)
    requires LegalPart(p, quote) && At(buf, i, PartText(p)) && LegalParts(ps, quote)
    requires At(buf, i + |PartText(p)|, PartsText(ps) + [quote])
    ensures LegalParts([p] + ps, quote) && At(buf, i, PartsText([p] + ps) + [quote])
  {
    hide PartText, LegalPart;
    var all := [p] + ps;
    assert all[1..] == ps;
    assert PartsText(all) + [quote] == PartText(p) + (PartsText(ps) + [quote]);
    var (a, b) := (PartText(p), PartsText(ps) + [quote]);
    assert buf[i..i + |a + b|] == buf[i..i + |a|] + buf[i + |a|..i + |a| + |b|];
  }

  lemma NoMore(buf: string, i: nat, quote: char)
    requires i < |buf| && buf[i] == quote
    ensures LegalParts([], quote) && At(buf, i, PartsText([]) + [quote])
  {
  }

  lemma {:induction false} PartsSound(t: Tok, buf: string, i: nat) returns (ps: seq<Part>)
    requires Wins(t, buf, i) && InString(t) && LegalQuote(t.quote)
    ensures LegalParts(ps, t.quote) && At(buf, i, PartsText(ps) + [t.quote])
    decreases |buf| - i
  {
    hide Run, Conclude, IsCommentState, Micro, Wf, At, PartsText, LegalParts, CString;
    WinStep(t, buf, i);
    TextCases(t, buf, i);
    var c := buf[i];
    if c == t.quote {
      NoMore(buf, i, t.quote);
      ps := [];
    } else if c == '\\' {
      ps := EscapeSound(Micro(t, buf, i).t, buf, i + 1);
    } else {
      ps := PartsSound(Micro(t, buf, i).t, buf, i + 1);
      OneAt(buf, i);
      OneMore(buf, i, Raw(c), ps, t.quote);
      ps := [Raw(c)] + ps;
    }
  }

  lemma ShortOnly(c: char)
    requires Unescaped(c) != ""
    ensures c in "\"\\/bfnrt"
  {
  }

  lemma SavedInString(t: Tok)
    requires Wf(t) && t.top.state == StrEscape
    ensures t.top.saved == Str || t.top.saved == Field
  {
    hide ParentsOk;
  }

  /** Behind a backslash: a letter that is an escape of its own, or a u. */
  lemma EscapeStep(t: Tok, buf: string, i: nat) returns (u: Tok)
    requires Wins(t, buf, i) && t.top.state == StrEscape
    ensures i < |buf| && Wins(u, buf, i + 1) && u.quote == t.quote
    ensures (InString(u) && LegalPart(Short(buf[i]), t.quote)) || (Unicode.InEscape(u) && buf[i] == 'u')
  {
    hide Run, Conclude, Micro, StateRank, ParentsOk, StepOk, Plain, Unescaped;
    WinStep(t, buf, i);
    TextCases(t, buf, i);
    SavedInString(t);
    if Unescaped(buf[i]) != "" { ShortOnly(buf[i]); }
    u := Micro(t, buf, i).t;
  }

  lemma {:induction false} EscapeSound(t: Tok, buf: string, i: nat) returns (ps: seq<Part>)
    requires Wins(t, buf, i) && t.top.state == StrEscape && LegalQuote(t.quote) && i >= 1 && buf[i - 1] == '\\'
    ensures LegalParts(ps, t.quote) && At(buf, i - 1, PartsText(ps) + [t.quote])
    decreases |buf| - i
  {
    hide Run, Conclude, IsCommentState, Wf, At, PartsText, LegalParts, LegalPart;
    var u := EscapeStep(t, buf, i);
    if InString(u) {
      ps := PartsSound(u, buf, i + 1);
      OneAt(buf, i - 1);
      OneMore(buf, i - 1, Short(buf[i]), ps, t.quote);
      ps := [Short(buf[i])] + ps;
    } else {
      ps := DigitsSound(u, buf, i + 1);
    }
  }

  /** One digit that is not the fourth. */
  lemma DigitSound(t: Tok, buf: string, i: nat) returns (u: Tok)
    requires Wins(t, buf, i) && t.top.state == EscapeUnicode && t.stPos < 3
    ensures i < |buf| && HexChar(buf[i]) && Wins(u, buf, i + 1) && u == t.(ucs := u.ucs, stPos := t.stPos + 1)
  {
    hide Run, Micro, TopOk, ParentsOk, StateRank, StepOk, Plain, HexVal, StepCodePoint;
    WinStep(t, buf, i);
    TextCases(t, buf, i);
    HexAgrees(buf[i]);
    EarlyDigit(t, buf, i);
    u := Micro(t, buf, i).t;
  }

  /** The fourth digit, and whether the tokener steps over the start of another escape. */
  lemma LastDigitSound(t: Tok, buf: string, i: nat) returns (u: Tok, ahead: bool)
    requires Wins(t, buf, i) && t.top.state == EscapeUnicode && t.stPos == 3
    ensures i < |buf| && HexChar(buf[i]) && u.quote == t.quote
    ensures !ahead ==> Wins(u, buf, i + 1) && InString(u)
    ensures ahead ==> i + 3 <= |buf| && buf[i + 1] == '\\' && buf[i + 2] == 'u' && Wins(u, buf, i + 3) && Unicode.InEscape(u)
  {
    hide Run, Micro, ParentsOk, StateRank, StepOk, Plain, HexVal, DecodeUnit;
    WinStep(t, buf, i);
    TextCases(t, buf, i);
    HexAgrees(buf[i]);
    FourthDigit(t, buf, i);
    u := Micro(t, buf, i).t;
    ahead := Micro(t, buf, i).n == 3;
  }

  /** Behind the `\u` of an escape. */
  lemma {:induction false} DigitsSound(t: Tok, buf: string, i: nat) returns (ps: seq<Part>)
    requires Wins(t, buf, i) && Unicode.InEscape(t) && LegalQuote(t.quote)
    requires i >= 2 && buf[i - 2] == '\\' && buf[i - 1] == 'u'
    ensures LegalParts(ps, t.quote) && At(buf, i - 2, PartsText(ps) + [t.quote])
    decreases |buf| - i
  {
    hide Run, Conclude, IsCommentState, Micro, Wf, At, PartsText, LegalParts;
    var t1 := DigitSound(t, buf, i);
    var t2 := DigitSound(t1, buf, i + 1);
    var t3 := DigitSound(t2, buf, i + 2);
    var u, ahead := LastDigitSound(t3, buf, i + 3);
    if ahead { ps := DigitsSound(u, buf, i + 6); } else { ps := PartsSound(u, buf, i + 4); }
    var p := Hex(buf[i], buf[i + 1], buf[i + 2], buf[i + 3]);
    HexAt(buf, i - 2);
    OneMore(buf, i - 2, p, ps, t.quote);
    ps := [p] + ps;
  }

  lemma HexAt(buf: string, i: nat)
    requires i + 6 <= |buf| && buf[i] == '\\' && buf[i + 1] == 'u'
    ensures At(buf, i, PartText(Hex(buf[i + 2], buf[i + 3], buf[i + 4], buf[i + 5])))
  {
  }

  // ------------------------------------------------------------ behind a value

  lemma FinishSteps(t: Tok, buf: string, i: nat)
    requires Wf(t) && t.top.state == Finish && i < |buf|
    ensures var n := |t.below|;
            Micro(t, buf, i) == if n == 0 then Out(t, 0, Success)
                                else Redo(t.(obj := t.top.current, below := t.below[..n - 1], top := t.below[n - 1]))
  {
    hide TopOk, ParentsOk, StateRank, StepOk, Plain;
  }

  /** Behind the outermost value of a strict call there is nothing but the NUL. */
  lemma OuterEnd(t: Tok, buf: string, i: nat)
    requires Wins(t, buf, i) && t.top.state == Finish && t.below == [] && i < |buf| && t.cfg.strict
    ensures buf[i] == '\0'
  {
    hide Run, Micro, Wf;
    FinishSteps(t, buf, i);
    RunOut(t, buf, i);
  }

  /** The bracket that closes what is directly below. */
  function Closing(t: Tok): char
    requires t.below != []
  {
    if t.below[|t.below| - 1].state == ArrayAdd then ']' else '}'
  }

  lemma AddSteps(t: Tok, buf: string, i: nat)
    requires Wf(t) && (t.top.state == ArrayAdd || t.top.state == ObjValueAdd) && i < |buf|
    ensures Micro(t, buf, i).Redo?
    ensures var u := Micro(t, buf, i).t;
            u.top.state == EatWs && u.top.saved == (if t.top.state == ArrayAdd then ArraySep else ObjSep) && u.cfg == t.cfg
  {
    hide ParentsOk, StateRank, StepOk, Plain, AddMember;
  }

  lemma SepSteps(t: Tok, buf: string, i: nat)
    requires Wf(t) && (t.top.state == ArraySep || t.top.state == ObjSep) && i < |buf| && !Micro(t, buf, i).Out?
    ensures buf[i] == ',' || buf[i] == (if t.top.state == ArraySep then ']' else '}')
  {
    hide ParentsOk, StateRank, StepOk, Plain, TopOk;
  }

  /** From the end of a child to the separator, at which the tokener is back in the parent. */
  lemma SepSound(t: Tok, buf: string, i: nat)
    requires Wins(t, buf, i) && t.top.state == Finish && t.below != [] && i < |buf| && !Skipped(buf[i], t.cfg.strict)
    ensures buf[i] == ',' || buf[i] == Closing(t)
  {
    hide Run, Conclude, Micro, Wf, Skipped;
    FinishSteps(t, buf, i);
    RunStep(t, buf, i);
    BelowWaits(t);
    var t1 := Micro(t, buf, i).t;
    AddSteps(t1, buf, i);
    WinStep(t1, buf, i);
    var t2 := Micro(t1, buf, i).t;
    AtToken(t2, buf, i);
    var t3 := t2.To(t2.top.saved);
    WinStep(t3, buf, i);
    SepSteps(t3, buf, i);
  }

  lemma BelowWaits(t: Tok)
    requires Wf(t) && t.below != []
    ensures var l := t.below[|t.below| - 1]; l.state == ArrayAdd || l.state == ObjValueAdd
  {
    assert ParentOk(t.below[|t.below| - 1]);
  }

  /** Behind a child: filling, then a comma or the bracket. */
  lemma BehindChild(t: Tok, buf: string, i: nat) returns (gap: Gap)
    requires Wins(t, buf, i) && t.top.state == EatWs && t.top.saved == Finish && t.below != []
    ensures LegalGap(gap, t.cfg.strict) && At(buf, i, Filling(gap))
    ensures var j := i + |Filling(gap)|; j < |buf| && (buf[j] == ',' || buf[j] == Closing(t))
  {
    hide Run, Conclude, Wf, At, Filling, LegalGap, Skipped;
    var u;
    gap, u := InnerGap(t, buf, i);
    SepSound(u, buf, i + |Filling(gap)|);
  }

  // ------------------------------------------------------------ words

  /** p is the beginning of a word. */
  predicate Begins(word: string, p: string, fold: bool) { |p| <= |word| && Same(p, word[..|p|], fold) }

  /** The two words that a state reads. */
  predicate Pair(s: State, a: string, b: string) {
    (s == Null && a == "null" && b == NAN) || (s == Boolean && a == "true" && b == "false")
  }

  /** What a letter does: it continues the first word, or the second, or neither. */
  lemma LetterDoes(t: Tok, buf: string, i: nat, a: string, b: string)
    requires Wf(t) && Pair(t.top.state, a, b) && i < |buf|
    ensures var (p, fold, j) := (t.pb + [buf[i]], !t.cfg.strict, t.stPos);
            var s := Micro(t, buf, i);
            if Matches(a, Min(j + 1, |a|), p, fold) then
              j == |a| || (s == Next(t.(pb := p, stPos := j + 1), 1))
            else if Matches(b, Min(j + 1, |b|), p, fold) then
              j == |b| || (s == Next(t.(pb := p, stPos := j + 1), 1))
            else s.Out?
  {
    hide StepOk, Plain, TopOk, ParentsOk, StateRank, Matches;
    WordCases(t, buf, i);
  }

  /** n letters of a word are there, or all of it and one character more. */
  lemma MatchMeans(word: string, p: string, c: char, fold: bool)
    requires Matches(word, Min(|p| + 1, |word|), p + [c], fold) && |p| <= |word|
    ensures if |p| == |word| then Same(p, word, fold) else Begins(word, p + [c], fold)
  {
    hide Same, Matches;
    var n := Min(|p| + 1, |word|);
    MatchesIs(word, n, p + [c], fold);
    if |p| == |word| {
      assert (p + [c])[..n] == p && word[..n] == word;
    } else {
      assert (p + [c])[..n] == p + [c];
    }
  }

  lemma WholeMatches(word: string, p: string, c: char, fold: bool)
    requires Same(p, word, fold)
    ensures |p| == |word| && Matches(word, |word|, p + [c], fold)
  {
    SamePrefix(p, word, 0, fold);
    MatchesIs(word, |word|, p + [c], fold);
    assert (p + [c])[..|word|] == p && word[..|word|] == word;
  }

  /** The first letters of true and false differ. */
  lemma NotTrue(p: string, c: char, fold: bool)
    requires Begins("false", p, fold) && p != ""
    ensures !Matches("true", Min(|p| + 1, 4), p + [c], fold)
  {
    SmallSame(p, "false"[..|p|], 0, fold);
    var n := Min(|p| + 1, 4);
    DifferentAt(p + [c], "true", n, 0, fold);
    MatchesIs("true", n, p + [c], fold);
  }

  /** The rest of a word, p being what has been read of it. */
  lemma {:induction false} LettersSound(t: Tok, buf: string, i: nat, a: string, b: string) returns (r: string, word: string)
    requires Wins(t, buf, i) && Pair(t.top.state, a, b) && t.stPos == |t.pb|
    requires Begins(a, t.pb, !t.cfg.strict) || Begins(b, t.pb, !t.cfg.strict)
    ensures (word == a || word == b) && Same(t.pb + r, word, !t.cfg.strict) && At(buf, i, r) && i + |r| < |buf|
    decreases |buf| - i
  {
    hide Run, Conclude, Micro, Wf, Matches, Same, Begins, At;
    WinStep(t, buf, i);
    LetterDoes(t, buf, i, a, b);
    var (p, c, fold) := (t.pb, buf[i], !t.cfg.strict);
    var first := Matches(a, Min(|p| + 1, |a|), p + [c], fold);
    word := if first then a else b;
    InLength(a, b, t.top.state, p, c, fold);
    MatchMeans(word, p, c, fold);
    if |p| == |word| {
      r := "";
      assert p + r == p;
      NothingHere(buf, i);
    } else {
      r, word := LettersSound(t.(pb := p + [c], stPos := |p| + 1), buf, i + 1, a, b);
      OneThen(buf, i, r);
      assert p + [c] + r == p + ([c] + r);
      r := [c] + r;
    }
  }

  /** What has been read is not longer than the word that it continues. */
  lemma InLength(a: string, b: string, s: State, p: string, c: char, fold: bool)
    requires Pair(s, a, b) && (Begins(a, p, fold) || Begins(b, p, fold))
    ensures Matches(a, Min(|p| + 1, |a|), p + [c], fold) ==> |p| <= |a|
    ensures !Matches(a, Min(|p| + 1, |a|), p + [c], fold) ==> |p| <= |b|
  {
    hide Same, Matches;
    if |p| > |b| {
      assert a[..4] == a;
      WholeMatches(a, p, c, fold);
    }
    if |p| > |a| { NotTrue(p, c, fold); }
  }

  lemma InfOnly(t: Tok, c: char)
    requires Wf(t) && t.top.state == Inf && t.stPos < 8 && !StepInf(t, c).Out?
    ensures StepInf(t, c) == Next(t.(stPos := t.stPos + 1), 1)
    ensures if t.cfg.strict then c == INFINITY[t.stPos] else Small(c) == Small(INFINITY[t.stPos])
  {
    hide StepOk, Plain, TopOk, ParentsOk, StateRank;
    assert InfWord(false)[t.stPos] == Small(INFINITY[t.stPos]);
  }

  lemma SameLetter(a: string, b: string, c: char, d: char, fold: bool)
    requires Same(a, b, fold) && (if fold then Small(c) == Small(d) else c == d)
    ensures Same([c] + a, [d] + b, fold)
  {
    if fold {
      assert Fold([c] + a) == [Small(c)] + Fold(a);
      assert Fold([d] + b) == [Small(d)] + Fold(b);
    }
  }

  lemma {:induction false} InfSound(t: Tok, buf: string, i: nat) returns (r: string)
    requires Wins(t, buf, i) && t.top.state == Inf && t.stPos <= 8
    ensures |r| == 8 - t.stPos && Same(r, INFINITY[t.stPos..], !t.cfg.strict) && At(buf, i, r) && i + |r| < |buf|
    decreases 8 - t.stPos
  {
    hide Run, Conclude, Micro, Wf, StepInf, Same, At;
    WinStep(t, buf, i);
    WordCases(t, buf, i);
    var j := t.stPos;
    if j < 8 {
      InfOnly(t, buf[i]);
      r := InfSound(t.(stPos := j + 1), buf, i + 1);
      OneThen(buf, i, r);
      SameLetter(r, INFINITY[j + 1..], buf[i], INFINITY[j], !t.cfg.strict);
      assert INFINITY[j..] == [INFINITY[j]] + INFINITY[j + 1..];
      r := [buf[i]] + r;
    } else {
      r := "";
      assert INFINITY[8..] == "";
      SameEmpty(!t.cfg.strict);
      NothingHere(buf, i);
    }
  }

  lemma SameEmpty(fold: bool)
    ensures Same("", "", fold)
  {
  }

  lemma NoLetters(a: string, fold: bool)
    ensures Begins(a, "", fold)
  {
    assert a[..0] == "";
  }

  /** What is spelled is a legal word. */
  lemma SpelledIsLegal(w: string, word: string, strict: bool)
    requires Same(w, word, !strict)
    requires word == "null" || word == NAN || word == "true" || word == "false" || word == INFINITY || word == "-Infinity"
    ensures LegalWord(w, strict)
  {
    FoldWords();
    hide Fold;
  }

  lemma WordSound(t: Tok, buf: string, i: nat) returns (w: string)
    requires Wins(t, buf, i) && t.stPos == 0 && t.pb == ""
    requires t.top.state == Null || t.top.state == Boolean || t.top.state == Inf
    ensures LegalWord(w, t.cfg.strict) && At(buf, i, w) && i + |w| < |buf|
  {
    hide Run, Conclude, Wf, At, Same, Begins, LegalWord;
    if t.top.state == Inf {
      w := InfSound(t, buf, i);
      assert INFINITY[0..] == INFINITY;
      SpelledIsLegal(w, INFINITY, t.cfg.strict);
    } else {
      var (a, b) := if t.top.state == Null then ("null", NAN) else ("true", "false");
      NoLetters(a, !t.cfg.strict);
      var word;
      w, word := LettersSound(t, buf, i, a, b);
      NothingBefore(w);
      SpelledIsLegal(w, word, t.cfg.strict);
    }
  }

  // ------------------------------------------------------------ numbers

  /** The rest of a number, s being what has been read of it. */
  lemma {:induction false} NumeralSound(t: Tok, buf: string, i: nat, s: string) returns (r: string, u: Tok)
    requires Wins(t, buf, i) && InNumeral(t, s, |s|) && NumeralShape(s)
    ensures NumeralShape(s + r) && At(buf, i, r) && i + |r| < |buf| && !IsNumberChar(buf[i + |r|])
    ensures InNumeral(u, s + r, |s + r|) && Wins(u, buf, i + |r|) && u.below == t.below && u.cfg == t.cfg && u.top == t.top
    decreases |buf| - i
  {
    hide Run, Conclude, Micro, Wf, NumeralShape, InNumeral, BadNumberChar, IsNumberChar, AfterNumberChar, StepNumberEnd;
    NumeralState(t, s, |s|);
    WinStep(t, buf, i);
    NumberCase(t, buf, i);
    var c := buf[i];
    if IsNumberChar(c) {
      var more := s + [c];
      NumeralGrows(t, s, c);
      r, u := NumeralSound(AfterNumberChar(t, c), buf, i + 1, more);
      assert s + ([c] + r) == more + r;
      OneThen(buf, i, r);
      r := [c] + r;
    } else {
      r, u := "", t;
      assert s + "" == s;
    }
  }

  lemma NumeralGrows(t: Tok, s: string, c: char)
    requires InNumeral(t, s, |s|) && NumeralShape(s) && IsNumberChar(c) && !BadNumberChar(t, c)
    ensures NumeralShape(s + [c]) && InNumeral(AfterNumberChar(t, c), s + [c], |s + [c]|)
    ensures AfterNumberChar(t, c).top == t.top && AfterNumberChar(t, c).below == t.below && AfterNumberChar(t, c).cfg == t.cfg
  {
    hide BadNumberChar;
    var more := s + [c];
    assert more[..|s|] == s[..|s|] == s;
    assert InNumeral(t, more, |s|);
    NumeralChar(t, more, |s|);
    forall k | 0 < k < |more| ensures CharFits(more, k) {
      if k < |s| {
        assert more[..k] == s[..k];
        assert CharFits(s, k);
      }
    }
  }

  /** Where a number ends. */
  lemma NumeralEnds(t: Tok, buf: string, i: nat, s: string) returns (infinite: bool, r: string)
    requires Wins(t, buf, i) && InNumeral(t, s, |s|) && NumeralShape(s) && i < |buf| && !IsNumberChar(buf[i])
    ensures infinite ==> s == "-" && |r| == 8 && Same(r, INFINITY, !t.cfg.strict) && At(buf, i, r) && i + 8 < |buf|
    ensures !infinite ==> LegalNumeral(s, t.cfg)
  {
    hide Run, Conclude, Micro, Wf, NumeralShape, NumberValue, LegalNumeral, InNumeral, Same;
    NumeralState(t, s, |s|);
    NumeralCount(t, s);
    WinStep(t, buf, i);
    NumberCase(t, buf, i);
    assert s[..|s|] == s;
    infinite, r := MinusInf(t, buf[i]), "";
    if infinite {
      r := InfSound(t.(stPos := 0).To(Inf), buf, i);
      assert INFINITY[0..] == INFINITY;
    } else {
      NumeralEnd(t, s);
    }
  }

  lemma NumeralCount(t: Tok, s: string)
    requires InNumeral(t, s, |s|)
    ensures t.caseLen == |s|
  {
  }

  lemma FirstDigit(t: Tok, buf: string, i: nat) returns (u: Tok)
    requires Wins(t, buf, i) && t.top == RESET_LEVEL && i < |buf| && (IsDigit(buf[i]) || buf[i] == '-')
    ensures Wins(u, buf, i + 1) && InNumeral(u, [buf[i]], 1) && NumeralShape([buf[i]]) && u.cfg == t.cfg
  {
    hide Run, Conclude, Micro, Wf, InNumeral, StepNumberEnd;
    var c := buf[i];
    var t1 := EnterNumber(t, buf, i);
    SameRun(t, buf, i, t1, i);
    assert InNumeral(t1, [c], 0);
    NumeralState(t1, [c], 0);
    NumeralChar(t1, [c], 0);
    WinStep(t1, buf, i);
    NumberCase(t1, buf, i);
    u := AfterNumberChar(t1, c);
  }

  lemma MinusInfinite(r: string, strict: bool)
    requires |r| == 8 && Same(r, INFINITY, !strict)
    ensures LegalWord("-" + r, strict) && "-" + r == ['-'] + r
  {
    SameLetter(r, INFINITY, '-', '-', !strict);
    assert ['-'] + INFINITY == "-Infinity";
    SpelledIsLegal("-" + r, "-Infinity", strict);
  }

  lemma NumberSound(t: Tok, buf: string, i: nat) returns (n: Node)
    requires Wins(t, buf, i) && t.top == RESET_LEVEL && i < |buf| && (IsDigit(buf[i]) || buf[i] == '-')
    ensures Legal(n, t.cfg) && (n.Word? || n.Numeral?) && At(buf, i, Yield(n)) && EndIsSeen(n, buf, i + |Yield(n)|)
  {
    hide Run, Wins, InNumeral, LegalNumeral, LegalWord, At, NumeralShape, IsNumberChar, Same;
    var t1 := FirstDigit(t, buf, i);
    var r, u := NumeralSound(t1, buf, i + 1, [buf[i]]);
    var s := [buf[i]] + r;
    OneThen(buf, i, r);
    var infinite, letters := NumeralEnds(u, buf, i + 1 + |r|, s);
    if infinite {
      MinusInfinite(letters, t.cfg.strict);
      n := Word("-" + letters);
      OneThen(buf, i, letters);
    } else {
      n := Numeral(s);
    }
  }
}
