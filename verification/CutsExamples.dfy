/** Two texts that one call accepts, and that do not survive a cut. */
module CutsExamples {
  import opened JsonValue
  import opened Sequences
  import opened Tokener
  import opened RoundTrip
  import opened Resume
  import opened TextScan
  import opened Cuts
  import opened CutsDecide
  import opened Unicode

  // ------------------------------------------------------------ strings

  lemma FirstLook(t: Tok, buf: string)
    requires Ready(t) && buf != "" && buf[0] == '"'
    ensures Wf(t.To(Start)) && Micro(t, buf, 0) == Redo(t.To(Start))
  {
    hide Plain, ParentsOk, StateRank;
  }

  lemma OpenQuote(t: Tok, buf: string)
    requires Wf(t) && t.top.state == Start && buf != "" && buf[0] == '"'
    ensures var u := t.(pb := "", quote := '"').To(Str); Wf(u) && Micro(t, buf, 0) == Next(u, 1)
  {
    hide Plain, ParentsOk, StateRank;
  }

  lemma OpenString(t: Tok, buf: string) returns (u: Tok)
    requires Ready(t) && t.gotHi == 0 && buf != "" && buf[0] == '"'
    ensures Wf(u) && u.top == Level(Str, Start, JNull, "") && u.quote == '"' && u.pb == "" && u.below == [] && u.gotHi == 0
    ensures RunTo(t, buf, 0, 1) == Some(u)
  {
    hide Micro, Plain, ParentsOk, TopOk, StateRank, RunTo, StepOk;
    var t1 := t.To(Start);
    u := t1.(pb := "", quote := '"').To(Str);
    FirstLook(t, buf);
    OpenQuote(t1, buf);
    StepTo(t1, buf, 0, 1);
    RedoTo(t, buf, 0, 1);
  }

  /** The closing quote is the last character. */
  lemma CloseString(t: Tok, buf: string, i: nat)
    requires Wf(t) && t.top.state == Str && t.below == [] && i + 1 == |buf| && buf[i] == '"' == t.quote
    ensures var r := Conclude(Run(t, buf, i)); r.err == Success && r.value == JString(t.pb) && r.off == |buf|
  {
    hide StepOk, Plain, TopOk, ParentsOk, StateRank, Run, Micro;
    var u := t.Value(JString(t.pb));
    TextCases(t, buf, i);
    assert Micro(t, buf, i) == Next(u, 1);
    RunNext(t, buf, i, u, 1);
    EndOfString(u, buf);
  }

  lemma EndOfString(u: Tok, buf: string)
    requires Wf(u) && u.top.state == EatWs && u.top.saved == Finish && u.below == []
    ensures var r := Conclude(Run(u, buf, |buf|)); r.err == Success && r.value == u.top.current && r.off == |buf|
  {
    hide TopOk, ParentsOk;
  }

  lemma EscapeValIs(buf: string, e: nat)
    requires EscapeEndsAt(buf, e)
    ensures EscapeVal(buf, e) ==
            HexVal(buf[e - 4]) * 0x1000 + HexVal(buf[e - 3]) * 0x100 + HexVal(buf[e - 2]) * 0x10 + HexVal(buf[e - 1])
  {
    hide HexVal, IsHex;
    assert PartVal(buf, e - 4, 1) == PartVal(buf, e - 4, 0) + HexVal(buf[e - 4]) * 0x1000;
    assert PartVal(buf, e - 4, 2) == PartVal(buf, e - 4, 1) + HexVal(buf[e - 3]) * 0x100;
    assert PartVal(buf, e - 4, 3) == PartVal(buf, e - 4, 2) + HexVal(buf[e - 2]) * 0x10;
  }

  /** The escape that ends at e has these digits. */
  lemma ReadEscape(buf: string, e: nat, a: char, b: char, c: char, d: char)
    requires 6 <= e <= |buf| && IsHex(a) && IsHex(b) && IsHex(c) && IsHex(d)
    requires buf[e - 6..e] == ['\\', 'u', a, b, c, d]
    ensures EscapeEndsAt(buf, e)
    ensures EscapeVal(buf, e) == HexVal(a) * 0x1000 + HexVal(b) * 0x100 + HexVal(c) * 0x10 + HexVal(d)
  {
    hide HexVal, IsHex, EscapeVal;
    var s := buf[e - 6..e];
    assert buf[e - 6] == s[0] && buf[e - 5] == s[1] && buf[e - 4] == s[2] && buf[e - 3] == s[3] && buf[e - 2] == s[4] && buf[e - 1] == s[5];
    EscapeValIs(buf, e);
  }

  // ------------------------------------------------------------ a pair, cut in the middle

  lemma FaceIs()
    ensures DecodePair(0xD83D, 0xDE00) == 0x1F600 && !Misread(0x1F600)
  {
  }

  lemma WholePair(t: Tok)
    requires Ready(t)
    ensures var r := ParseEx(t, "\"\\uD83D\\uDE00\"");
            r.err == Success && r.value == JString(Utf8(0x1F600)) && r.off == 14
  {
    hide RunTo, Run, Micro, TopOk, ParentsOk, EscapeVal, Utf8;
    var buf := "\"\\uD83D\\uDE00\"";
    var u := OpenString(StartCall(t), buf);
    PassThrough(StartCall(t), buf, 0, 1, 1);
    ReadEscape(buf, 7, 'D', '8', '3', 'D');
    ReadEscape(buf, 13, 'D', 'E', '0', '0');
    FaceIs();
    PairEscape(u, buf, 1);
    var w := RunTo(u, buf, 1, 13).value;
    PassThrough(u, buf, 1, 13, 13);
    assert "" + Utf8(0x1F600) == Utf8(0x1F600);
    CloseString(w, buf, 13);
  }

  /** An escape of a surrogate at the end of the buffer, or a low one anywhere. */
  lemma LoneEscape(t: Tok, buf: string, i: nat) returns (u: Tok)
    requires Wf(t) && t.top.state == Str && EscapeEndsAt(buf, i + 6)
    requires IsLow(EscapeVal(buf, i + 6)) || (IsHigh(EscapeVal(buf, i + 6)) && i + 6 == |buf|)
    ensures Unicode.Added(t, u, REPLACEMENT) && u.gotHi == 0 && Run(t, buf, i) == Run(u, buf, i + 6)
  {
    hide RunTo, Run, Micro, Plain, TopOk, ParentsOk, StateRank, EscapeVal, StepOk;
    var t3, d := EscapeDigits(t, buf, i);
    PassThrough(t, buf, i, i + 5, i + 5);
    u := StepCodePoint(d, buf, i + 5).t;
    assert "" + REPLACEMENT == REPLACEMENT && d.pb == t.pb + "" == t.pb;
    RunNext(t3, buf, i + 5, u, 1);
  }

  lemma FirstHalf(t: Tok) returns (u: Tok)
    requires Ready(t)
    ensures ParseEx(t, "\"\\uD83D") == Result(u, 7, Continue, JNull)
    ensures Wf(u) && u.top.state == Str && u.quote == '"' && u.pb == REPLACEMENT && u.below == []
  {
    hide RunTo, Run, Micro, TopOk, ParentsOk, EscapeVal;
    var buf := "\"\\uD83D";
    var s := OpenString(StartCall(t), buf);
    PassThrough(StartCall(t), buf, 0, 1, 1);
    ReadEscape(buf, 7, 'D', '8', '3', 'D');
    u := LoneEscape(s, buf, 1);
    StringGoesOn(u, buf);
  }

  lemma StringGoesOn(u: Tok, buf: string)
    requires Wf(u) && u.top.state == Str
    ensures Conclude(Run(u, buf, |buf|)) == Result(u, |buf|, Continue, JNull)
  {
    hide TopOk, ParentsOk;
  }

  lemma SecondHalf(t: Tok)
    requires Wf(t) && t.top.state == Str && t.quote == '"' && t.below == []
    ensures var r := ParseEx(t, "\\uDE00\"");
            r.err == Success && r.value == JString(t.pb + REPLACEMENT) && r.off == 7
  {
    hide RunTo, Run, Micro, TopOk, ParentsOk, EscapeVal;
    var buf := "\\uDE00\"";
    ReadEscape(buf, 6, 'D', 'E', '0', '0');
    var u := LoneEscape(StartCall(t), buf, 0);
    CloseString(u, buf, 6);
  }

  /** The pair of U+1F600: in one piece one code point, in two pieces two replacement
      characters, without an error. */
  lemma CutPair(t: Tok)
    requires Ready(t)
    ensures var whole, first := ParseEx(t, "\"\\uD83D\\uDE00\""), ParseEx(t, "\"\\uD83D");
            && first.err == Continue && first.off == 7 && Wf(first.t)
            && var second := ParseEx(first.t, "\\uDE00\"");
               && whole.err == Success && whole.value == JString(Utf8(0x1F600))
               && second.err == Success && second.value == JString(REPLACEMENT + REPLACEMENT) != whole.value
  {
    hide ParseEx;
    WholePair(t);
    var u := FirstHalf(t);
    SecondHalf(u);
    FourBytes(0x1F600);
  }

  // ------------------------------------------------------------ no pair at all

  /** Where the loop stands, the tokener follows the lexer. */
  lemma {:induction false} FollowsTo(t: Tok, buf: string, i: nat, k: nat, kept: Kept)
    requires Wf(t) && Follows(t, buf, i, kept) && i <= k <= |buf| && RunTo(t, buf, i, k).Some?
    ensures Follows(RunTo(t, buf, i, k).value, buf, k, kept)
    decreases |buf| - i, Rank(t)
  {
    hide Micro, Plain, TopOk, ParentsOk, StateRank, Rank, Follows;
    if i < k {
      MicroFollows(t, buf, i, kept);
      match Micro(t, buf, i)
      case Redo(u) => FollowsTo(u, buf, i, k, kept);
      case Out(_, _, _) =>
      case Next(u, n) => if buf[i] != '\0' { FollowsTo(u, buf, i + n, k, kept); }
    }
  }

  const NO_PAIR := "\"\\uD800\\u0041\""

  lemma LoneThenLetter()
    ensures DecodeUnit(0xD800, 0x41).Bytes?
  {
  }

  lemma WholeNoPair(t: Tok) returns (w: Tok)
    requires Ready(t)
    ensures RunTo(StartCall(t), NO_PAIR, 0, 9) == Some(w) && w.top.state == EscapeUnicode && w.gotHi != 0 && w.stPos == 0
    ensures var r := ParseEx(t, NO_PAIR); r.err == Success && r.off == 14
  {
    hide RunTo, Run, Micro, TopOk, ParentsOk, EscapeVal, StateRank, StepOk, Plain, DecodeUnit;
    var buf := NO_PAIR;
    LoneThenLetter();
    var s := OpenString(StartCall(t), buf);
    ReadEscape(buf, 7, 'D', '8', '0', '0');
    ReadEscape(buf, 13, '0', '0', '4', '1');
    w := HighEscape(s, buf, 1);
    var w3, d := FourDigits(w, buf, 9);
    var u := StepCodePoint(d, buf, 12).t;
    PassThrough(StartCall(t), buf, 0, 1, 9);
    PassThrough(StartCall(t), buf, 0, 9, 9);
    PassThrough(w, buf, 9, 12, 12);
    RunNext(w3, buf, 12, u, 1);
    CloseString(u, buf, 13);
  }

  /** No surrogate pair in the text, and one call accepts it; cut right behind the second
      `\u` it makes the next call shift by a negative amount. */
  lemma CutNoPair(t: Tok)
    requires Ready(t)
    ensures ParseEx(t, "\"\\uD800\\u0041\"").err == Success
    ensures var r := ParseEx(t, "\"\\uD800\\u");
            r.err == Continue && r.off == 9 && Wf(r.t) && ParseEx(r.t, "0041\"").err == Undefined
  {
    hide ParseEx, RunTo, Run, Micro, TopOk, ParentsOk, ModeAt, TextSurvives;
    var buf := NO_PAIR;
    var w := WholeNoPair(t);
    FreshFollows(t, buf);
    FollowsTo(StartCall(t), buf, 0, 9, Exact);
    assert BehindStart(ModeAt(buf, 9));
    GoodCall(t, buf);
    CutBehindStart(t, buf, 9);
    assert buf[..9] == "\"\\uD800\\u" && buf[9..] == "0041\"";
  }

  lemma GoodCall(t: Tok, buf: string)
    requires Wf(t) && ParseEx(t, buf).err == Success && ParseEx(t, buf).off == |buf|
    ensures Good(Run(StartCall(t), buf, 0), buf)
  {
    hide Run, TopOk, ParentsOk;
  }
}
