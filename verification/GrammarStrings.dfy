/** What the tokener makes of the pieces of a string or a key: the bytes that the grammar says. */
module GrammarStrings {
  import opened Sequences
  import opened Tokener
  import opened Grammar
  import opened RoundTrip
  import Unicode

  // ------------------------------------------------------------ characters

  /** The hexadecimal digits of the tokener, and their values. */
  lemma HexDigits()
    ensures HexVal('0') == 0 && HexVal('1') == 1 && HexVal('2') == 2 && HexVal('3') == 3 && HexVal('4') == 4
    ensures HexVal('5') == 5 && HexVal('6') == 6 && HexVal('7') == 7 && HexVal('8') == 8 && HexVal('9') == 9
    ensures HexVal('a') == HexVal('A') == 10 && HexVal('b') == HexVal('B') == 11 && HexVal('c') == HexVal('C') == 12
    ensures HexVal('d') == HexVal('D') == 13 && HexVal('e') == HexVal('E') == 14 && HexVal('f') == HexVal('F') == 15
    ensures forall c :: IsHex(c) <==> c in "0123456789abcdefABCDEF"
  {
  }

  lemma HexAgrees(c: char)
    ensures HexChar(c) <==> IsHex(c)
    ensures IsHex(c) ==> HexVal(c) == HexNumber(c)
  {
  }

  lemma ShortAgrees(c: char)
    requires c in "\"\\/bfnrt"
    ensures Unescaped(c) == [ShortValue(c)] && c != 'u' && c != '\0'
  {
  }

  /** A code point that waits for its second half. */
  predicate Waiting(hi: nat) { hi == 0 || (hi < 0x110000 && 0xD800 <= hi % 0x10000 < 0xDC00) }

  lemma PairValue(hi: nat, u: nat)
    requires 0xDC00 <= u < 0xE000
    ensures DecodePair(hi, u) == 0x10000 + hi % 0x400 * 0x400 + (u - 0xDC00)
    ensures 0x10000 <= DecodePair(hi, u) < 0x110000
  {
  }

  lemma SurrogateBits(u: nat)
    requires u < 0x110000
    ensures u >= 0x800 && IsHigh(u) <==> 0xD800 <= u % 0x10000 < 0xDC00
    ensures u >= 0x800 && IsLow(u) <==> 0xDC00 <= u % 0x10000 < 0xE000
    ensures u < 0x800 ==> !IsLow(u)
  {
    if u >= 0x10000 { Unicode.MisreadBits(u); }
  }

  /** The tokener and the grammar agree on every escape, whatever waits before it. */
  lemma UnitAgrees(hi: nat, u: nat)
    requires u < 0x10000 && Waiting(hi)
    ensures var (s, w) := Unit(hi, u);
            Waiting(w) && DecodeUnit(hi, u) == if w == 0 then Bytes(s) else HighHalf(s, w)
  {
    hide Utf8, IsHigh, IsLow, DecodePair;
    Unicode.ReplacementIs();
    SurrogateBits(u);
    if hi != 0 && IsLow(u) {
      PairValue(hi, u);
      SurrogateBits(DecodePair(hi, u));
      NothingBefore(CodePoint(DecodePair(hi, u)).0);
    }
  }

  lemma NothingBefore(s: string)
    ensures "" + s == s
  {
  }

  // ------------------------------------------------------------ pieces

  lemma {:induction false} LegalRest(ps: seq<Part>, quote: char)
    requires ps != [] && LegalParts(ps, quote)
    ensures LegalPart(ps[0], quote) && LegalParts(ps[1..], quote)
  {
  }

  /** The text of the first piece, and what stands behind it. */
  lemma FirstPart(buf: string, i: nat, ps: seq<Part>, quote: char)
    requires ps != [] && At(buf, i, PartsText(ps) + [quote])
    ensures At(buf, i, PartText(ps[0])) && At(buf, i + |PartText(ps[0])|, PartsText(ps[1..]) + [quote])
    ensures |PartsText(ps)| == |PartText(ps[0])| + |PartsText(ps[1..])|
  {
    hide PartText;
    assert PartsText(ps) + [quote] == PartText(ps[0]) + (PartsText(ps[1..]) + [quote]);
    AtSplit(buf, i, PartText(ps[0]), PartsText(ps[1..]) + [quote]);
  }

  lemma AtChars(buf: string, i: nat, s: string, k: nat)
    requires At(buf, i, s) && k < |s|
    ensures i + k < |buf| && buf[i + k] == s[k]
  {
    assert buf[i..i + |s|][k] == s[k];
  }

  /** Another escape stands here exactly if the next piece is one. */
  lemma EscapeStands(buf: string, i: nat, ps: seq<Part>, quote: char)
    requires LegalParts(ps, quote) && At(buf, i, PartsText(ps) + [quote]) && LegalQuote(quote)
    ensures i < |buf|
    ensures i + 1 < |buf| && buf[i] == '\\' && buf[i + 1] == 'u' <==> ps != [] && ps[0].Hex?
    ensures ps != [] && ps[0].Hex? ==> i + 2 < |buf|
  {
    hide At;
    AtChars(buf, i, PartsText(ps) + [quote], 0);
    if ps != [] {
      FirstPart(buf, i, ps, quote);
      AtChars(buf, i, PartText(ps[0]), 0);
      match ps[0]
      case Raw(_) =>
      case Short(_) => AtChars(buf, i, PartText(ps[0]), 1);
      case Hex(_, _, _, _) =>
        AtChars(buf, i, PartText(ps[0]), 1);
        AtChars(buf, i, PartText(ps[0]), 2);
    }
  }

  lemma RunDigit(t: Tok, buf: string, i: nat, c: char) returns (u: Tok)
    requires Wf(t) && t.top.state == EscapeUnicode && t.stPos < 3 && i < |buf| && buf[i] == c && HexChar(c)
    ensures Wf(u) && u == t.(stPos := t.stPos + 1, ucs := t.ucs + HexNumber(c) * Shift(t.stPos))
    ensures Run(t, buf, i) == Run(u, buf, i + 1)
  {
    hide Run, Micro, StepOk, Plain, TopOk, ParentsOk, StateRank, HexVal, HexNumber;
    HexAgrees(c);
    EarlyDigit(t, buf, i);
    u := t.(stPos := t.stPos + 1, ucs := t.ucs + HexNumber(c) * Shift(t.stPos));
    RunNext(t, buf, i, u, 1);
  }

  /** The four digits of an escape, up to where its value is looked at. */
  lemma RunDigits(t: Tok, buf: string, i: nat, p: Part) returns (u: Tok, d: Tok)
    requires Unicode.InEscape(t) && p.Hex? && LegalPart(p, t.quote) && At(buf, i, [p.h0, p.h1, p.h2, p.h3])
    ensures i + 3 < |buf| && Wf(u) && Run(t, buf, i) == Run(u, buf, i + 3) && buf[i + 3] != '\0'
    ensures d == t.(ucs := UnitValue(p), stPos := 4) && Wf(d) && Micro(u, buf, i + 3) == StepCodePoint(d, buf, i + 3)
  {
    hide Run, Micro, StepOk, Plain, TopOk, ParentsOk, StateRank, HexVal, HexNumber, At, StepCodePoint;
    var s := [p.h0, p.h1, p.h2, p.h3];
    AtChars(buf, i, s, 0);
    AtChars(buf, i, s, 1);
    AtChars(buf, i, s, 2);
    AtChars(buf, i, s, 3);
    var t1 := RunDigit(t, buf, i, p.h0);
    var t2 := RunDigit(t1, buf, i + 1, p.h1);
    u := RunDigit(t2, buf, i + 2, p.h2);
    HexAgrees(p.h3);
    FourthDigit(u, buf, i + 3);
    d := Completed(u, p.h3);
  }

  /** u is t inside the same string or key, with s added. */
  ghost predicate Grown(t: Tok, u: Tok, s: string) { Wf(u) && SameText(t, u) && u.pb == t.pb + s }

  lemma GrownTwice(t: Tok, u: Tok, w: Tok, a: string, b: string)
    requires Grown(t, u, a) && Grown(u, w, b)
    ensures Grown(t, w, a + b)
  {
    hide Wf;
    assert t.pb + a + b == t.pb + (a + b);
  }

  ghost predicate InString(t: Tok) { Wf(t) && (t.top.state == Str || t.top.state == Field) }

  lemma ParseRaw(t: Tok, buf: string, i: nat, c: char) returns (u: Tok)
    requires InString(t) && At(buf, i, [c]) && LegalPart(Raw(c), t.quote)
    ensures Grown(t, u, [c]) && Run(t, buf, i) == Run(u, buf, i + 1)
  {
    hide Run, Micro, StepOk, Plain, TopOk, ParentsOk, StateRank, CString;
    AtChars(buf, i, [c], 0);
    TextCases(t, buf, i);
    u := t.Append([c]);
    RunNext(t, buf, i, u, 1);
  }

  /** The backslash. */
  lemma OpenEscape(t: Tok, buf: string, i: nat) returns (u: Tok)
    requires InString(t) && i < |buf| && buf[i] == '\\'
    ensures Wf(u) && u == t.(top := t.top.(state := StrEscape, saved := t.top.state))
    ensures Run(t, buf, i) == Run(u, buf, i + 1)
  {
    hide Run, Micro, StepOk, Plain, ParentsOk, StateRank, CString;
    TextCases(t, buf, i);
    u := t.(top := t.top.(state := StrEscape, saved := t.top.state));
    RunNext(t, buf, i, u, 1);
  }

  lemma ParseShort(t: Tok, buf: string, i: nat, c: char) returns (u: Tok)
    requires InString(t) && At(buf, i, ['\\', c]) && LegalPart(Short(c), t.quote)
    ensures Grown(t, u, [ShortValue(c)]) && Run(t, buf, i) == Run(u, buf, i + 2)
  {
    hide Run, Micro, StepOk, Plain, TopOk, ParentsOk, StateRank, Unescaped, ShortValue;
    AtChars(buf, i, ['\\', c], 0);
    AtChars(buf, i, ['\\', c], 1);
    ShortAgrees(c);
    var t1 := OpenEscape(t, buf, i);
    TextCases(t1, buf, i + 1);
    u := t1.To(t.top.state).Append([ShortValue(c)]);
    RunNext(t1, buf, i + 1, u, 1);
  }

  /** The backslash and the u. */
  lemma ParseU(t: Tok, buf: string, i: nat) returns (u: Tok)
    requires InString(t) && i + 1 < |buf| && buf[i] == '\\' && buf[i + 1] == 'u'
    ensures Unicode.InEscape(u) && u.gotHi == 0 && u.top.saved == t.top.state && Grown(t, u.To(t.top.state), "")
    ensures u.quote == t.quote
    ensures Run(t, buf, i) == Run(u, buf, i + 2)
  {
    hide Run, Micro, StepOk, Plain, ParentsOk, StateRank;
    var t1 := OpenEscape(t, buf, i);
    TextCases(t1, buf, i + 1);
    assert Unescaped('u') == "";
    u := t1.(ucs := 0, stPos := 0, gotHi := 0).To(EscapeUnicode);
    RunNext(t1, buf, i + 1, u, 1);
    assert t.pb + "" == t.pb;
  }

  /** Where the value of an escape leads: on in the string, or to the digits of the next
      escape with a code point that waits. */
  lemma AfterUnit(t: Tok, d: Tok, buf: string, i: nat, ahead: bool) returns (u: Tok)
    requires Wf(t) && i < |buf| && buf[i] != '\0'
    requires Wf(d) && d.top.state == EscapeUnicode && d.ucs < 0x10000 && Waiting(d.gotHi)
    requires Micro(t, buf, i) == StepCodePoint(d, buf, i)
    requires ahead <==> i + 2 < |buf| && buf[i + 1] == '\\' && buf[i + 2] == 'u'
    requires ahead ==> i + 3 < |buf|
    ensures var ((s, w), back) := (Unit(d.gotHi, d.ucs), d.To(d.top.saved));
            if w != 0 && ahead then
              && Unicode.InEscape(u) && u.gotHi == w && Waiting(w) && u.top.saved == d.top.saved
              && Grown(back, u.To(d.top.saved), s) && Run(t, buf, i) == Run(u, buf, i + 3)
            else Grown(back, u, s + Lone(w)) && InString(u) && Run(t, buf, i) == Run(u, buf, i + 1)
    ensures u.quote == d.quote
  {
    hide Run, Micro, StepOk, Plain, ParentsOk, StateRank, DecodeUnit, Unit, Utf8;
    UnitAgrees(d.gotHi, d.ucs);
    Unicode.ReplacementIs();
    var (s, w) := Unit(d.gotHi, d.ucs);
    assert s + "" == s;
    u := StepCodePoint(d, buf, i).t;
    RunNext(t, buf, i, u, if w != 0 && ahead then 3 else 1);
  }

  // ------------------------------------------------------------ all pieces

  /** What waits before a piece that is not an escape is alone. */
  lemma LoneFirst(ps: seq<Part>, hi: nat)
    requires ps == [] || !ps[0].Hex?
    ensures Chars(ps, hi) == Lone(hi) + Chars(ps, 0)
  {
    hide Utf8, ShortValue;
    if ps != [] {
      var rest := Chars(ps[1..], 0);
      Regroup(Lone(hi), [if ps[0].Raw? then ps[0].c else ShortValue(ps[0].c)], rest);
    } else {
      assert Lone(hi) + "" == Lone(hi);
    }
  }

  lemma Regroup(a: string, b: string, c: string)
    ensures a + b + c == a + ("" + b + c)
  {
  }

  /** The pieces of a string or a key, up to its closing quote. */
  lemma {:induction false} ParseParts(t: Tok, buf: string, i: nat, ps: seq<Part>) returns (u: Tok)
    requires InString(t) && LegalQuote(t.quote) && LegalParts(ps, t.quote) && At(buf, i, PartsText(ps) + [t.quote])
    ensures Grown(t, u, Chars(ps, 0)) && Run(t, buf, i) == Run(u, buf, i + |PartsText(ps)|)
    decreases |ps|, 1
  {
    hide Run, Wf, LegalPart, LegalParts, At, PartsText, Chars, Unicode.InEscape, SameText;
    if ps == [] {
      NoParts();
      assert t.pb + "" == t.pb;
      u := t;
      SameItself(t);
    } else {
      FirstPart(buf, i, ps, t.quote);
      LegalRest(ps, t.quote);
      CharsFirst(ps);
      match ps[0]
      case Raw(c) =>
        var t1 := ParseRaw(t, buf, i, c);
        u := ParseAfter(t, t1, buf, i + 1, ps[1..], [c]);
      case Short(c) =>
        var t1 := ParseShort(t, buf, i, c);
        u := ParseAfter(t, t1, buf, i + 2, ps[1..], [ShortValue(c)]);
      case Hex(_, _, _, _) =>
        AtChars(buf, i, PartText(ps[0]), 0);
        AtChars(buf, i, PartText(ps[0]), 1);
        var t1 := ParseU(t, buf, i);
        var w := ParseWaiting(t1, buf, i, ps, 0);
        u := w;
        GrownTwice(t, t1.To(t.top.state), u, "", Chars(ps, 0));
        NothingBefore(Chars(ps, 0));
    }
  }

  lemma SameItself(t: Tok)
    ensures SameText(t, t)
  {
  }

  lemma NoParts()
    ensures Chars([], 0) == "" && PartsText([]) == ""
  {
  }

  lemma CharsFirst(ps: seq<Part>)
    requires ps != []
    ensures ps[0].Raw? ==> Chars(ps, 0) == [ps[0].c] + Chars(ps[1..], 0)
    ensures ps[0].Short? ==> Chars(ps, 0) == [ShortValue(ps[0].c)] + Chars(ps[1..], 0)
  {
    if ps[0].Raw? { assert "" + [ps[0].c] == [ps[0].c]; }
    if ps[0].Short? { assert "" + [ShortValue(ps[0].c)] == [ShortValue(ps[0].c)]; }
  }

  /** One piece has been read and has added s. */
  lemma ParseAfter(t: Tok, t1: Tok, buf: string, i: nat, ps: seq<Part>, s: string) returns (u: Tok)
    requires InString(t) && LegalQuote(t.quote) && Grown(t, t1, s)
    requires LegalParts(ps, t.quote) && At(buf, i, PartsText(ps) + [t.quote])
    ensures Grown(t, u, s + Chars(ps, 0)) && Run(t1, buf, i) == Run(u, buf, i + |PartsText(ps)|)
    decreases |ps|, 2
  {
    hide Run, Wf, LegalParts, At, PartsText, Chars;
    u := ParseParts(t1, buf, i, ps);
    GrownTwice(t, t1, u, s, Chars(ps, 0));
  }

  lemma CharsEscape(ps: seq<Part>, hi: nat)
    requires ps != [] && ps[0].Hex?
    ensures var (s, w) := Unit(hi, UnitValue(ps[0])); Chars(ps, hi) == s + Chars(ps[1..], w)
  {
  }

  /** What the tokener goes back to behind an escape. */
  lemma BackInString(t: Tok, d: Tok)
    requires Wf(d) && d.top.state == EscapeUnicode && d == t.(ucs := d.ucs, stPos := d.stPos)
    ensures InString(d.To(d.top.saved)) && d.quote == t.quote
  {
    hide ParentsOk, StateRank;
  }

  lemma GrownFrom(t: Tok, d: Tok, u: Tok, s: string)
    requires d == t.(ucs := d.ucs, stPos := d.stPos) && Grown(d.To(d.top.saved), u, s)
    ensures Grown(t.To(t.top.saved), u, s)
  {
    hide Wf;
  }

  lemma LoneRest(ps: seq<Part>, s: string, w: nat)
    requires w == 0 || ps == [] || !ps[0].Hex?
    ensures s + Lone(w) + Chars(ps, 0) == s + Chars(ps, w)
  {
    hide Chars, Utf8;
    if w == 0 {
      assert s + "" == s;
    } else {
      LoneFirst(ps, w);
      assert s + Lone(w) + Chars(ps, 0) == s + (Lone(w) + Chars(ps, 0));
    }
  }

  /** The pieces from an escape on whose `\u` has been read, with a code point that waits. */
  lemma {:induction false} ParseWaiting(t: Tok, buf: string, i: nat, ps: seq<Part>, hi: nat) returns (u: Tok)
    requires Unicode.InEscape(t) && t.gotHi == hi && Waiting(hi) && LegalQuote(t.quote)
    requires ps != [] && ps[0].Hex? && LegalParts(ps, t.quote) && At(buf, i, PartsText(ps) + [t.quote])
    ensures Grown(t.To(t.top.saved), u, Chars(ps, hi)) && i + 2 <= |buf| && Run(t, buf, i + 2) == Run(u, buf, i + |PartsText(ps)|)
    decreases |ps|, 0
  {
    hide Run, Wf, LegalPart, LegalParts, At, PartsText, SameText, Unit, Lone, StepCodePoint, Micro, Waiting;
    var (p, rest) := (ps[0], ps[1..]);
    FirstPart(buf, i, ps, t.quote);
    LegalRest(ps, t.quote);
    assert PartText(p) == ['\\', 'u'] + [p.h0, p.h1, p.h2, p.h3];
    AtSplit(buf, i, ['\\', 'u'], [p.h0, p.h1, p.h2, p.h3]);
    var t1, d := RunDigits(t, buf, i + 2, p);
    EscapeStands(buf, i + 6, rest, t.quote);
    BackInString(t, d);
    CharsEscape(ps, hi);
    var ahead := rest != [] && rest[0].Hex?;
    var t2 := AfterUnit(t1, d, buf, i + 5, ahead);
    var (s, w) := Unit(hi, UnitValue(p));
    var back := d.To(d.top.saved);
    if w != 0 && ahead {
      u := ParseWaiting(t2, buf, i + 6, rest, w);
      GrownTwice(back, t2.To(d.top.saved), u, s, Chars(rest, w));
    } else {
      u := ParseAfter(back, t2, buf, i + 6, rest, s + Lone(w));
      LoneRest(rest, s, w);
    }
    GrownFrom(t, d, u, Chars(ps, hi));
  }
}
