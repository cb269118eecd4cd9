/** Which characters stand where in a printed text, for every choice of flags.  No escape in
    it leaves a surrogate waiting, and so it may be cut anywhere. */
module CutsPrinted {
  import opened Decimals
  import opened JsonValue
  import opened JsonText
  import opened Sequences
  import opened Tokener
  import opened TextScan

  /** White space outside quotes: only what the flags ask for. */
  predicate WsAsked(c: char, f: Flags) {
    && (c == ' ' ==> f.spaced || (f.pretty && !f.prettyTab))
    && (c == '\t' ==> f.pretty && f.prettyTab)
    && (c == '\n' ==> f.pretty)
    && c != '\r' && c != 11 as char && c != 12 as char
  }

  /** What may stand in a printed text, by what comes before it: inside quotes no control
      character, a slash by itself only without escaped slashes, and behind a backslash only
      with them; outside quotes neither slashes nor single quotes. */
  predicate CharOk(m: Mode, c: char, f: Flags) {
    match m
    case Outside => c != '/' && c != '\'' && WsAsked(c, f)
    case Quoted(_, _) => c >= ' ' && (c == '/' ==> f.noSlash)
    case Escaped(_, _) => c in "\"\\bfnrtu" || (c == '/' && !f.noSlash)
    case Unit(_, _, _, _) => c in "0123456789abcdef"
    case _ => false
  }

  /** No surrogate waits between i and j, the lexer comes from mode m back to it, and every
      character may stand where it does. */
  ghost predicate Calm(buf: string, i: nat, j: nat, m: Mode, f: Flags) {
    && i <= j <= |buf| && ModeAt(buf, i) == m == ModeAt(buf, j)
    && (forall k | i <= k <= j :: Hi(ModeAt(buf, k)) == 0)
    && (forall k | i <= k < j :: CharOk(ModeAt(buf, k), buf[k], f))
  }

  lemma CalmHere(buf: string, i: nat, m: Mode, f: Flags)
    requires i <= |buf| && ModeAt(buf, i) == m && Hi(m) == 0
    ensures Calm(buf, i, i, m, f)
  {
    hide ModeAt;
  }

  lemma CalmThen(buf: string, i: nat, j: nat, k: nat, m: Mode, f: Flags)
    requires Calm(buf, i, j, m, f) && Calm(buf, j, k, m, f)
    ensures Calm(buf, i, k, m, f)
  {
    hide ModeAt;
  }

  // ------------------------------------------------------------ outside quotes

  predicate NoQuote(s: string, f: Flags) { forall j | 0 <= j < |s| :: s[j] != '/' && s[j] != '"' && s[j] != '\'' && WsAsked(s[j], f) }

  lemma {:induction false} CalmOutside(buf: string, i: nat, s: string, f: Flags)
    requires At(buf, i, s) && NoQuote(s, f) && ModeAt(buf, i) == Outside
    ensures Calm(buf, i, i + |s|, Outside, f)
    decreases |s|
  {
    hide ModeAt;
    CalmHere(buf, i, Outside, f);
    if s != "" {
      assert buf[i + 0] == s[0];
      ModeNext(buf, i);
      assert s == [s[0]] + s[1..];
      AtSplit(buf, i, [s[0]], s[1..]);
      CalmOutside(buf, i + 1, s[1..], f);
    }
  }

  // ------------------------------------------------------------ inside quotes

  const INSIDE := Quoted('"', 0)

  lemma CalmChar(buf: string, i: nat, c: char, f: Flags)
    requires At(buf, i, EscapeChar(c, f)) && ModeAt(buf, i) == INSIDE
    ensures Calm(buf, i, i + |EscapeChar(c, f)|, INSIDE, f)
  {
    hide ModeAt;
    var e := EscapeChar(c, f);
    assert buf[i + 0] == e[0];
    ModeNext(buf, i);
    if ShortEscape(c, f) != "" {
      assert buf[i + 1] == e[1] && e[1] != 'u';
      ModeNext(buf, i + 1);
    } else if c < ' ' {
      CalmControl(buf, i, c, f);
    }
  }

  lemma CalmControl(buf: string, i: nat, c: char, f: Flags)
    requires c < ' ' && At(buf, i, "\\u00" + [HexDigit(c as nat / 16), HexDigit(c as nat % 16)])
    requires ModeAt(buf, i) == INSIDE
    ensures Calm(buf, i, i + 6, INSIDE, f)
  {
    hide ModeAt, DecodeUnit, HexDigit, At, HexVal, IsHex, WaitingAfter, WsAsked;
    ControlStands(buf, i, HexDigit(c as nat / 16), HexDigit(c as nat % 16));
    ModeNext(buf, i);
    ModeNext(buf, i + 1);
    DigitMode(buf, i + 2, 0);
    DigitMode(buf, i + 3, 0);
    DigitMode(buf, i + 4, c as nat / 16);
    LastDigitMode(buf, i + 5, c as nat % 16);
  }

  lemma ControlStands(buf: string, i: nat, x: char, y: char)
    requires At(buf, i, "\\u00" + [x, y])
    ensures i + 6 <= |buf| && buf[i] == '\\' && buf[i + 1] == 'u' && buf[i + 2] == '0' && buf[i + 3] == '0'
    ensures buf[i + 4] == x && buf[i + 5] == y && HexDigit(0) == '0'
  {
    var e := "\\u00" + [x, y];
    assert buf[i + 0] == e[0] && buf[i + 1] == e[1] && buf[i + 2] == e[2] && buf[i + 3] == e[3];
    assert buf[i + 4] == e[4] && buf[i + 5] == e[5];
  }

  lemma DigitMode(buf: string, k: nat, d: nat)
    requires k < |buf| && d < 16 && buf[k] == HexDigit(d) && ModeAt(buf, k).Unit? && ModeAt(buf, k).n < 3
    ensures var m := ModeAt(buf, k); ModeAt(buf, k + 1) == Unit(m.quote, m.n + 1, m.v + d * Shift(m.n), m.hi)
    ensures buf[k] in "0123456789abcdef"
  {
    hide ModeAt, DecodeUnit;
    ModeNext(buf, k);
  }

  lemma LastDigitMode(buf: string, k: nat, d: nat)
    requires k < |buf| && d < 16 && buf[k] == HexDigit(d) && ModeAt(buf, k).Unit? && ModeAt(buf, k).n == 3
    requires ModeAt(buf, k).v + d < 0x800 && ModeAt(buf, k).hi == 0
    ensures ModeAt(buf, k + 1) == Quoted(ModeAt(buf, k).quote, 0)
    ensures buf[k] in "0123456789abcdef"
  {
    hide ModeAt;
    ModeNext(buf, k);
  }

  lemma {:induction false} CalmText(buf: string, i: nat, s: string, f: Flags)
    requires At(buf, i, Escape(s, f)) && ModeAt(buf, i) == INSIDE
    ensures Calm(buf, i, i + |Escape(s, f)|, INSIDE, f)
    decreases |s|
  {
    hide ModeAt, EscapeChar;
    if s == "" {
      CalmHere(buf, i, INSIDE, f);
    } else {
      var e := EscapeChar(s[0], f);
      AtSplit(buf, i, e, Escape(s[1..], f));
      CalmChar(buf, i, s[0], f);
      CalmText(buf, i + |e|, s[1..], f);
      CalmThen(buf, i, i + |e|, i + |Escape(s, f)|, INSIDE, f);
    }
  }

  /** A string with its quotes. */
  lemma CalmString(buf: string, i: nat, s: string, f: Flags)
    requires At(buf, i, "\"" + Escape(s, f) + "\"") && ModeAt(buf, i) == Outside
    ensures Calm(buf, i, i + |Escape(s, f)| + 2, Outside, f)
  {
    hide ModeAt, Escape;
    var n := |Escape(s, f)|;
    AtSplit(buf, i, "\"" + Escape(s, f), "\"");
    AtSplit(buf, i, "\"", Escape(s, f));
    assert buf[i] == buf[i..i + 1][0] == '"';
    ModeNext(buf, i);
    CalmText(buf, i + 1, s, f);
    assert buf[i + 1 + n] == buf[i + 1 + n..i + 2 + n][0] == '"';
    ModeNext(buf, i + 1 + n);
  }

  // ------------------------------------------------------------ values

  lemma LayoutHasNoQuote(k: nat, empty: bool, level: nat, f: Flags)
    ensures NoQuote(Lead(k, level, f), f) && NoQuote(CloseWs(empty, level, f), f) && NoQuote(NewLine(f), f)
  {
    assert NoQuote(Indent(level, f), f);
  }

  lemma IntHasNoQuote(n: int, f: Flags)
    ensures NoQuote(IntText(n), f)
  {
    hide Digits;
    var m := if n < 0 then -n else n;
    DigitsValue(m);
    forall j | 0 <= j < |Digits(m)| ensures IsDigit(Digits(m)[j]) {}
  }

  /** Two parts, one after the other. */
  lemma CalmBoth(buf: string, i: nat, x: string, y: string, f: Flags)
    requires At(buf, i, x + y)
    requires Calm(buf, i, i + |x|, Outside, f) && Calm(buf, i + |x|, i + |x| + |y|, Outside, f)
    ensures Calm(buf, i, i + |x + y|, Outside, f)
  {
    hide ModeAt;
    CalmThen(buf, i, i + |x|, i + |x| + |y|, Outside, f);
  }

  /** A container with its brackets, when its contents are calm. */
  lemma CalmContainer(buf: string, i: nat, open: string, inner: string, close: string, f: Flags)
    requires At(buf, i, open + inner + close) && NoQuote(open, f) && NoQuote(close, f) && ModeAt(buf, i) == Outside
    requires ModeAt(buf, i) == Outside && At(buf, i + |open|, inner)
    requires ModeAt(buf, i + |open|) == Outside ==> Calm(buf, i + |open|, i + |open| + |inner|, Outside, f)
    ensures Calm(buf, i, i + |open + inner + close|, Outside, f)
  {
    hide ModeAt;
    AtSplit(buf, i, open + inner, close);
    AtSplit(buf, i, open, inner);
    CalmOutside(buf, i, open, f);
    CalmBoth(buf, i, open, inner, f);
    CalmOutside(buf, i + |open + inner|, close, f);
    CalmBoth(buf, i, open + inner, close, f);
  }

  lemma CalmValue(buf: string, i: nat, v: JValue, level: nat, f: Flags)
    requires Printable(v) && At(buf, i, Text(v, level, f)) && ModeAt(buf, i) == Outside
    ensures Calm(buf, i, i + |Text(v, level, f)|, Outside, f)
    decreases v, 0
  {
    hide ModeAt, Escape, IntText, ElemsText, MembersText, CloseWs, NewLine, Calm, At;
    match v
    case JNull => CalmOutside(buf, i, "null", f);
    case JBool(b) => CalmOutside(buf, i, Text(v, level, f), f);
    case JInt(n) =>
      IntHasNoQuote(n, f);
      CalmOutside(buf, i, IntText(n), f);
    case JString(s) => CalmString(buf, i, s, f);
    case JArray(es) => CalmArray(buf, i, es, level, f);
    case JObject(ms) => CalmObject(buf, i, ms, level, f);
  }

  lemma CalmArray(buf: string, i: nat, es: seq<JValue>, level: nat, f: Flags)
    requires Printable(JArray(es)) && At(buf, i, Text(JArray(es), level, f)) && ModeAt(buf, i) == Outside
    ensures Calm(buf, i, i + |Text(JArray(es), level, f)|, Outside, f)
    decreases es, |es| + 1
  {
    hide ModeAt, ElemsText, CloseWs, NewLine, Calm, At;
    LayoutHasNoQuote(0, es == [], level, f);
    var open, inner, close := "[" + NewLine(f), ElemsText(es, 0, level + 1, f), CloseWs(es == [], level, f) + "]";
    assert Text(JArray(es), level, f) == open + inner + close;
    AtSplit(buf, i, open + inner, close);
    AtSplit(buf, i, open, inner);
    if ModeAt(buf, i + |open|) == Outside { CalmElems(buf, i + |open|, es, 0, level + 1, f); }
    CalmContainer(buf, i, open, inner, close, f);
  }

  lemma CalmObject(buf: string, i: nat, ms: seq<Member>, level: nat, f: Flags)
    requires Printable(JObject(ms)) && At(buf, i, Text(JObject(ms), level, f)) && ModeAt(buf, i) == Outside
    ensures Calm(buf, i, i + |Text(JObject(ms), level, f)|, Outside, f)
    decreases ms, |ms| + 1
  {
    hide ModeAt, MembersText, CloseWs, NewLine, Calm, At;
    LayoutHasNoQuote(0, ms == [], level, f);
    var open, inner, close := "{" + NewLine(f), MembersText(ms, 0, level + 1, f), CloseWs(ms == [], level, f) + "}";
    assert Text(JObject(ms), level, f) == open + inner + close;
    AtSplit(buf, i, open + inner, close);
    AtSplit(buf, i, open, inner);
    if ModeAt(buf, i + |open|) == Outside { CalmMembers(buf, i + |open|, ms, 0, level + 1, f); }
    CalmContainer(buf, i, open, inner, close, f);
  }

  lemma CalmElems(buf: string, i: nat, es: seq<JValue>, k: nat, level: nat, f: Flags)
    requires i <= |buf| && k <= |es| && (forall j | 0 <= j < |es| :: Printable(es[j]))
    requires At(buf, i, ElemsText(es, k, level, f)) && ModeAt(buf, i) == Outside
    ensures Calm(buf, i, i + |ElemsText(es, k, level, f)|, Outside, f)
    decreases es, |es| - k
  {
    hide ModeAt, Text, Lead, Calm, At;
    if k == |es| {
      CalmHere(buf, i, Outside, f);
    } else {
      var lead, text, rest := Lead(k, level, f), Text(es[k], level, f), ElemsText(es, k + 1, level, f);
      AtSplit(buf, i, lead + text, rest);
      AtSplit(buf, i, lead, text);
      LayoutHasNoQuote(k, false, level, f);
      CalmOutside(buf, i, lead, f);
      CalmEnds(buf, i, i + |lead|, f);
      CalmValue(buf, i + |lead|, es[k], level, f);
      CalmBoth(buf, i, lead, text, f);
      CalmEnds(buf, i, i + |lead + text|, f);
      CalmElems(buf, i + |lead + text|, es, k + 1, level, f);
      CalmBoth(buf, i, lead + text, rest, f);
    }
  }

  lemma CalmEnds(buf: string, i: nat, j: nat, f: Flags)
    requires Calm(buf, i, j, Outside, f)
    ensures j <= |buf| && ModeAt(buf, j) == Outside
  {
  }

  lemma CalmKey(buf: string, i: nat, key: string, f: Flags)
    requires At(buf, i, KeyText(key, f)) && ModeAt(buf, i) == Outside
    ensures Calm(buf, i, i + |KeyText(key, f)|, Outside, f)
  {
    hide ModeAt, Escape, Calm, At;
    var quoted, tail := "\"" + Escape(key, f) + "\"", ":" + (if f.spaced then " " else "");
    assert KeyText(key, f) == quoted + tail;
    AtSplit(buf, i, quoted, tail);
    CalmString(buf, i, key, f);
    CalmEnds(buf, i, i + |quoted|, f);
    CalmOutside(buf, i + |quoted|, tail, f);
    CalmBoth(buf, i, quoted, tail, f);
  }

  lemma CalmMembers(buf: string, i: nat, ms: seq<Member>, k: nat, level: nat, f: Flags)
    requires i <= |buf| && k <= |ms| && (forall j | 0 <= j < |ms| :: Printable(ms[j].val))
    requires At(buf, i, MembersText(ms, k, level, f)) && ModeAt(buf, i) == Outside
    ensures Calm(buf, i, i + |MembersText(ms, k, level, f)|, Outside, f)
    decreases ms, |ms| - k
  {
    hide ModeAt, Text, Lead, Calm, At, KeyText;
    if k == |ms| {
      CalmHere(buf, i, Outside, f);
    } else {
      var lead, key := Lead(k, level, f), KeyText(ms[k].key, f);
      var text, rest := Text(ms[k].val, level, f), MembersText(ms, k + 1, level, f);
      AtSplit(buf, i, lead + key + text, rest);
      AtSplit(buf, i, lead + key, text);
      AtSplit(buf, i, lead, key);
      LayoutHasNoQuote(k, false, level, f);
      CalmOutside(buf, i, lead, f);
      CalmEnds(buf, i, i + |lead|, f);
      CalmKey(buf, i + |lead|, ms[k].key, f);
      CalmBoth(buf, i, lead, key, f);
      CalmEnds(buf, i, i + |lead + key|, f);
      CalmValue(buf, i + |lead + key|, ms[k].val, level, f);
      CalmBoth(buf, i, lead + key, text, f);
      CalmEnds(buf, i, i + |lead + key + text|, f);
      CalmMembers(buf, i + |lead + key + text|, ms, k + 1, level, f);
      CalmBoth(buf, i, lead + key + text, rest, f);
    }
  }

  /** No cut of a printed text is a bad one. */
  lemma NoBadCut(v: JValue, f: Flags, k: nat)
    requires Printable(v) && k <= |Text(v, 0, f)|
    ensures !BadCut(Text(v, 0, f), k)
  {
    hide Text, LowAhead;
    var text := Text(v, 0, f);
    CalmValue(text, 0, v, 0, f);
  }

  /** Every character of every printed text may stand where it does. */
  lemma PrintedChars(v: JValue, f: Flags, k: nat)
    requires Printable(v) && k < |Text(v, 0, f)|
    ensures CharOk(ModeAt(Text(v, 0, f), k), Text(v, 0, f)[k], f)
  {
    hide Text, CharOk, ModeAt;
    var text := Text(v, 0, f);
    assert ModeAt(text, 0) == Outside by { StartsOutside(text); }
    CalmValue(text, 0, v, 0, f);
  }

  lemma StartsOutside(buf: string)
    ensures ModeAt(buf, 0) == Outside
  {
  }

  /** A slash inside quotes stands behind a backslash exactly if the flags do not forbid it. */
  lemma SlashesPrinted(v: JValue, f: Flags, k: nat)
    requires Printable(v) && k < |Text(v, 0, f)| && Text(v, 0, f)[k] == '/'
    ensures var m := ModeAt(Text(v, 0, f), k); if f.noSlash then m.Quoted? else m.Escaped? && k > 0 && Text(v, 0, f)[k - 1] == '\\'
  {
    hide Text, ModeAt;
    PrintedChars(v, f, k);
    if !f.noSlash { BackslashBehind(Text(v, 0, f), k); }
  }

  /** Without flags there is no white space outside quotes. */
  lemma NoSpacePrinted(v: JValue, f: Flags, k: nat)
    requires Printable(v) && !f.spaced && !f.pretty && k < |Text(v, 0, f)| && ModeAt(Text(v, 0, f), k) == Outside
    ensures Text(v, 0, f)[k] !in " \t\n\r"
  {
    hide Text, ModeAt;
    PrintedChars(v, f, k);
  }
}
