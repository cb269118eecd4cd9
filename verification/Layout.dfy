/** What the flags of the serializers do to a text: the text for any flags is that for none,
    laid out character by character from left to right.  The layout knows quotes and counts
    open brackets, and nothing of values. */
module Layout {
  import opened Decimals
  import opened JsonValue
  import opened JsonText
  import opened Sequences

  /** No layout, slashes as they are. */
  const PLAIN := Flags(false, false, false, true)

  datatype Place = Outside | Inside | Escaped

  function Line(f: Flags): string { if f.pretty then [10 as char] else "" }

  function Blank(f: Flags): string { if f.spaced then [32 as char] else "" }

  /** Two spaces or one tab for every open bracket. */
  function Margin(depth: nat, f: Flags): string {
    if !f.pretty || depth == 0 then "" else (if f.prettyTab then [9 as char] else [32 as char, 32 as char]) + Margin(depth - 1, f)
  }

  predicate Opens(c: char) { c == '[' || c == '{' }
  predicate Closes(c: char) { c == ']' || c == '}' }

  function Less(depth: nat): nat { if depth == 0 then 0 else depth - 1 }

  /** A character outside quotes, inside depth brackets: a blank behind a colon; a new line
      with its margin behind a comma and behind the opening bracket of a container that is not
      empty; before a closing bracket a new line, with one bracket less. */
  function LaidOutside(s: string, i: nat, depth: nat, f: Flags): string
    requires i < |s|
  {
    var c := s[i];
    if c == ':' then [c] + Blank(f)
    else if c == ',' then [c] + (Line(f) + (Blank(f) + Margin(depth, f)))
    else if Opens(c) then [c] + (Line(f) + (if i + 1 < |s| && Closes(s[i + 1]) then "" else Blank(f) + Margin(depth + 1, f)))
    else if Closes(c) then (if i > 0 && Opens(s[i - 1]) then "" else Line(f)) + (Margin(Less(depth), f) + (Blank(f) + [c]))
    else [c]
  }

  /** Inside quotes only slashes change. */
  function LaidInside(c: char, f: Flags): string { if c == '/' && !f.noSlash then ['\\', '/'] else [c] }

  function Laid(s: string, i: nat, depth: nat, m: Place, f: Flags): string
    requires i <= |s|
    decreases |s| - i
  {
    if i == |s| then ""
    else
      var c := s[i];
      match m
      case Outside =>
        LaidOutside(s, i, depth, f)
        + Laid(s, i + 1, if Opens(c) then depth + 1 else if Closes(c) then Less(depth) else depth, if c == '"' then Inside else Outside, f)
      case Inside =>
        LaidInside(c, f) + Laid(s, i + 1, depth, if c == '"' then Outside else if c == '\\' then Escaped else Inside, f)
      case Escaped => [c] + Laid(s, i + 1, depth, Inside, f)
  }

  // ------------------------------------------------------------ plain characters

  lemma AtFirst(s: string, i: nat, w: string)
    requires At(s, i, w) && w != ""
    ensures i < |s| && s[i] == w[0] && At(s, i + 1, w[1..])
  {
    assert w == [w[0]] + w[1..];
    AtSplit(s, i, [w[0]], w[1..]);
    assert s[i..i + 1][0] == w[0];
  }

  predicate Quiet(c: char) { c != ':' && c != ',' && c != '"' && !Opens(c) && !Closes(c) }

  lemma LaidOne(s: string, i: nat, depth: nat, f: Flags)
    requires i < |s| && Quiet(s[i])
    ensures Laid(s, i, depth, Outside, f) == [s[i]] + Laid(s, i + 1, depth, Outside, f)
  {
  }

  lemma AtEnds(s: string, i: nat, w: string)
    requires At(s, i, w)
    ensures i + |w| <= |s|
  {
  }

  /** Words and numbers stay as they are. */
  lemma {:induction false} LaidQuiet(s: string, i: nat, w: string, depth: nat, f: Flags)
    requires At(s, i, w) && forall k | 0 <= k < |w| :: Quiet(w[k])
    ensures Laid(s, i, depth, Outside, f) == w + Laid(s, i + |w|, depth, Outside, f)
    decreases |w|
  {
    hide Laid;
    if w == "" {
      NoPart(Laid(s, i, depth, Outside, f));
    } else {
      AtFirst(s, i, w);
      LaidOne(s, i, depth, f);
      LaidQuiet(s, i + 1, w[1..], depth, f);
      Joined([w[0]], w[1..], Laid(s, i + |w|, depth, Outside, f));
      assert [w[0]] + w[1..] == w;
    }
  }

  lemma NoPart(s: string)
    ensures "" + s == s
  {
  }

  lemma Joined(a: string, b: string, c: string)
    ensures a + (b + c) == a + b + c
  {
  }

  // ------------------------------------------------------------ strings

  lemma LaidPair(s: string, i: nat, x: char, depth: nat, f: Flags)
    requires i + 1 < |s| && s[i] == '\\' && s[i + 1] == x
    ensures Laid(s, i, depth, Inside, f) == ['\\', x] + Laid(s, i + 2, depth, Inside, f)
  {
    assert Laid(s, i, depth, Inside, f) == LaidInside('\\', f) + Laid(s, i + 1, depth, Escaped, f);
    Joined(['\\'], [x], Laid(s, i + 2, depth, Inside, f));
  }

  lemma LaidRaw(s: string, i: nat, depth: nat, f: Flags)
    requires i < |s| && s[i] != '"' && s[i] != '\\'
    ensures Laid(s, i, depth, Inside, f) == LaidInside(s[i], f) + Laid(s, i + 1, depth, Inside, f)
  {
  }

  lemma HexIsRaw(n: nat)
    requires n < 16
    ensures HexDigit(n) != '"' && HexDigit(n) != '\\' && HexDigit(n) != '/'
  {
  }

  lemma {:induction false} LaidRaws(s: string, i: nat, w: string, depth: nat, f: Flags)
    requires At(s, i, w) && forall k | 0 <= k < |w| :: w[k] != '"' && w[k] != '\\' && w[k] != '/'
    ensures Laid(s, i, depth, Inside, f) == w + Laid(s, i + |w|, depth, Inside, f)
    decreases |w|
  {
    hide Laid;
    if w == "" {
      NoPart(Laid(s, i, depth, Inside, f));
    } else {
      AtFirst(s, i, w);
      LaidRaw(s, i, depth, f);
      LaidRaws(s, i + 1, w[1..], depth, f);
      Joined([w[0]], w[1..], Laid(s, i + |w|, depth, Inside, f));
      assert [w[0]] + w[1..] == w;
    }
  }

  /** One character of a string. */
  lemma LaidChar(s: string, i: nat, c: char, depth: nat, f: Flags)
    requires At(s, i, EscapeChar(c, PLAIN))
    ensures Laid(s, i, depth, Inside, f) == EscapeChar(c, f) + Laid(s, i + |EscapeChar(c, PLAIN)|, depth, Inside, f)
  {
    hide Laid;
    var e := EscapeChar(c, PLAIN);
    AtFirst(s, i, e);
    if ShortEscape(c, PLAIN) != "" {
      AtFirst(s, i + 1, e[1..]);
      assert e == ['\\', e[1]] && ShortEscape(c, f) == e;
      LaidPair(s, i, e[1], depth, f);
    } else if c < ' ' {
      var (x, y) := (HexDigit(c as nat / 16), HexDigit(c as nat % 16));
      AtFirst(s, i + 1, e[1..]);
      LaidControl(s, i, x, y, depth, f, c);
    } else {
      LaidRaw(s, i, depth, f);
    }
  }

  lemma LaidControl(s: string, i: nat, x: char, y: char, depth: nat, f: Flags, c: char)
    requires c < ' ' && x == HexDigit(c as nat / 16) && y == HexDigit(c as nat % 16) && At(s, i, "\\u00" + [x, y])
    ensures Laid(s, i, depth, Inside, f) == "\\u00" + [x, y] + Laid(s, i + 6, depth, Inside, f)
  {
    hide Laid, HexDigit;
    HexIsRaw(c as nat / 16);
    HexIsRaw(c as nat % 16);
    assert "\\u00" + [x, y] == ['\\', 'u'] + ['0', '0', x, y];
    AtSplit(s, i, ['\\', 'u'], ['0', '0', x, y]);
    AtFirst(s, i, ['\\', 'u']);
    AtFirst(s, i + 1, ['\\', 'u'][1..]);
    LaidPair(s, i, 'u', depth, f);
    LaidRaws(s, i + 2, ['0', '0', x, y], depth, f);
    Joined(['\\', 'u'], ['0', '0', x, y], Laid(s, i + 6, depth, Inside, f));
  }

  lemma {:induction false} LaidEscaped(s: string, i: nat, w: string, depth: nat, f: Flags)
    requires At(s, i, Escape(w, PLAIN))
    ensures Laid(s, i, depth, Inside, f) == Escape(w, f) + Laid(s, i + |Escape(w, PLAIN)|, depth, Inside, f)
    decreases |w|
  {
    hide Laid, EscapeChar, At;
    AtEnds(s, i, Escape(w, PLAIN));
    if w == "" {
      NoneEscaped(f);
      NoneEscaped(PLAIN);
      NoPart(Laid(s, i, depth, Inside, f));
    } else {
      var e := EscapeChar(w[0], PLAIN);
      AtSplit(s, i, e, Escape(w[1..], PLAIN));
      LaidChar(s, i, w[0], depth, f);
      LaidEscaped(s, i + |e|, w[1..], depth, f);
      Joined(EscapeChar(w[0], f), Escape(w[1..], f), Laid(s, i + |Escape(w, PLAIN)|, depth, Inside, f));
    }
  }

  lemma LaidQuote(s: string, i: nat, depth: nat, f: Flags)
    requires i < |s| && s[i] == '"'
    ensures Laid(s, i, depth, Outside, f) == ['"'] + Laid(s, i + 1, depth, Inside, f)
    ensures Laid(s, i, depth, Inside, f) == ['"'] + Laid(s, i + 1, depth, Outside, f)
  {
  }

  lemma LaidString(s: string, i: nat, w: string, depth: nat, f: Flags)
    requires At(s, i, "\"" + Escape(w, PLAIN) + "\"")
    ensures Laid(s, i, depth, Outside, f) == "\"" + Escape(w, f) + "\"" + Laid(s, i + |Escape(w, PLAIN)| + 2, depth, Outside, f)
  {
    hide Laid, Escape;
    var n := |Escape(w, PLAIN)|;
    AtSplit(s, i, "\"" + Escape(w, PLAIN), "\"");
    AtSplit(s, i, "\"", Escape(w, PLAIN));
    AtFirst(s, i, "\"");
    AtFirst(s, i + 1 + n, "\"");
    LaidQuote(s, i, depth, f);
    LaidEscaped(s, i + 1, w, depth, f);
    LaidQuote(s, i + 1 + n, depth, f);
    var tail := Laid(s, i + 2 + n, depth, Outside, f);
    assert "\"" + (Escape(w, f) + ("\"" + tail)) == "\"" + Escape(w, f) + "\"" + tail;
  }

  // ------------------------------------------------------------ values

  lemma IntQuiet(n: int)
    ensures forall k | 0 <= k < |IntText(n)| :: Quiet(IntText(n)[k])
  {
    hide Digits;
    var m := if n < 0 then -n else n;
    DigitsValue(m);
    forall k | 0 <= k < |IntText(n)| ensures Quiet(IntText(n)[k]) {
      if n >= 0 { assert IsDigit(Digits(m)[k]); } else if k > 0 { assert IsDigit(Digits(m)[k - 1]); }
    }
  }

  /** The margin is the indentation of the serializers. */
  lemma {:induction false} MarginIs(level: nat, f: Flags)
    ensures Indent(level, f) == Margin(level, f)
  {
    if f.pretty && level > 0 {
      MarginIs(level - 1, f);
      if f.prettyTab {
        assert Repeat('\t', level) == [9 as char] + Repeat('\t', level - 1);
      } else {
        assert Repeat(' ', level * 2) == [32 as char, 32 as char] + Repeat(' ', (level - 1) * 2);
      }
    }
  }

  /** How a printed value starts and ends. */
  lemma TextEnds(v: JValue, level: nat, f: Flags)
    requires Printable(v)
    ensures var t := Text(v, level, f); t != "" && !Closes(t[0]) && !Opens(t[|t| - 1])
  {
    hide Escape, ElemsText, MembersText, CloseWs, IntText;
    if v.JInt? { IntEnds(v.n); }
  }

  lemma IntEnds(n: int)
    ensures var t := IntText(n); t != "" && !Closes(t[0]) && !Opens(t[|t| - 1])
  {
    hide Digits;
    IntQuiet(n);
    DigitsValue(if n < 0 then -n else n);
  }

  /** Without flags there is nothing but commas between the children. */
  lemma PlainLead(k: nat, level: nat)
    ensures Lead(k, level, PLAIN) == (if k > 0 then "," else "") && NewLine(PLAIN) == ""
    ensures CloseWs(true, level, PLAIN) == "" && CloseWs(false, level, PLAIN) == ""
  {
  }

  lemma FlaggedLead(k: nat, level: nat, f: Flags)
    ensures NewLine(f) == Line(f) && LeadWs(level, f) == Blank(f) + Margin(level, f)
    ensures k > 0 ==> Lead(k, level, f) == [','] + (Line(f) + (Blank(f) + Margin(level, f)))
    ensures Lead(0, level, f) == Blank(f) + Margin(level, f)
    ensures CloseWs(true, level, f) == Margin(level, f) + Blank(f) && CloseWs(false, level, f) == Line(f) + (Margin(level, f) + Blank(f))
  {
    MarginIs(level, f);
    hide Indent, Margin;
  }

  lemma LaidComma(s: string, i: nat, depth: nat, f: Flags)
    requires i < |s| && s[i] == ','
    ensures Laid(s, i, depth, Outside, f) == Lead(1, depth, f) + Laid(s, i + 1, depth, Outside, f)
  {
    FlaggedLead(1, depth, f);
  }

  lemma LaidColon(s: string, i: nat, depth: nat, f: Flags)
    requires i < |s| && s[i] == ':'
    ensures Laid(s, i, depth, Outside, f) == [':'] + Blank(f) + Laid(s, i + 1, depth, Outside, f)
  {
  }

  /** An opening bracket, with the layout up to the first child if there is one. */
  lemma LaidOpen(s: string, i: nat, depth: nat, f: Flags, empty: bool)
    requires i + 1 < |s| && Opens(s[i]) && (Closes(s[i + 1]) <==> empty)
    ensures Laid(s, i, depth, Outside, f)
            == [s[i]] + NewLine(f) + (if empty then "" else Lead(0, depth + 1, f)) + Laid(s, i + 1, depth + 1, Outside, f)
  {
    hide Margin, Lead, Indent;
    assert Laid(s, i, depth, Outside, f) == LaidOutside(s, i, depth, f) + Laid(s, i + 1, depth + 1, Outside, f);
    OpenIs(s, i, depth, f, empty);
  }

  lemma OpenIs(s: string, i: nat, depth: nat, f: Flags, empty: bool)
    requires i + 1 < |s| && Opens(s[i]) && (Closes(s[i + 1]) <==> empty)
    ensures LaidOutside(s, i, depth, f) == [s[i]] + NewLine(f) + (if empty then "" else Lead(0, depth + 1, f))
  {
    hide Margin, Lead;
    FlaggedLead(0, depth + 1, f);
    Joined([s[i]], Line(f), if empty then "" else Lead(0, depth + 1, f));
  }

  lemma LaidClose(s: string, i: nat, depth: nat, f: Flags, empty: bool)
    requires 0 < i < |s| && Closes(s[i]) && (Opens(s[i - 1]) <==> empty)
    ensures Laid(s, i, depth + 1, Outside, f) == CloseWs(empty, depth, f) + [s[i]] + Laid(s, i + 1, depth, Outside, f)
  {
    hide Margin, CloseWs;
    assert Laid(s, i, depth + 1, Outside, f) == LaidOutside(s, i, depth + 1, f) + Laid(s, i + 1, depth, Outside, f);
    CloseIs(s, i, depth, f, empty);
  }

  lemma CloseIs(s: string, i: nat, depth: nat, f: Flags, empty: bool)
    requires 0 < i < |s| && Closes(s[i]) && (Opens(s[i - 1]) <==> empty)
    ensures LaidOutside(s, i, depth + 1, f) == CloseWs(empty, depth, f) + [s[i]]
  {
    hide Margin, CloseWs, Indent;
    FlaggedLead(0, depth, f);
    var (a, b, c) := (if empty then "" else Line(f), Margin(depth, f), Blank(f));
    NoPart(b + c);
    Regroup(a, b, c, [s[i]]);
  }

  lemma Regroup(a: string, b: string, c: string, d: string)
    ensures a + (b + (c + d)) == a + (b + c) + d
  {
  }

  lemma LaidValue(s: string, i: nat, v: JValue, level: nat, f: Flags)
    requires Printable(v) && At(s, i, Text(v, level, PLAIN))
    ensures i + |Text(v, level, PLAIN)| <= |s|
    ensures Laid(s, i, level, Outside, f) == Text(v, level, f) + Laid(s, i + |Text(v, level, PLAIN)|, level, Outside, f)
    decreases v, 0
  {
    hide Laid, Escape, IntText, ElemsText, MembersText, CloseWs, NewLine, At;
    AtEnds(s, i, Text(v, level, PLAIN));
    match v
    case JNull => LaidQuiet(s, i, "null", level, f);
    case JBool(b) => LaidQuiet(s, i, if b then "true" else "false", level, f);
    case JInt(n) =>
      IntQuiet(n);
      LaidQuiet(s, i, IntText(n), level, f);
    case JString(w) => LaidString(s, i, w, level, f);
    case JArray(es) => LaidArray(s, i, es, level, f);
    case JObject(ms) => LaidObject(s, i, ms, level, f);
  }

  /** The elements from the k-th on, k > 0, each with its comma. */
  lemma LaidElems(s: string, i: nat, es: seq<JValue>, k: nat, level: nat, f: Flags)
    requires 0 < k <= |es| && (forall j | 0 <= j < |es| :: Printable(es[j])) && At(s, i, ElemsText(es, k, level, PLAIN))
    ensures i + |ElemsText(es, k, level, PLAIN)| <= |s|
    ensures Laid(s, i, level, Outside, f)
            == ElemsText(es, k, level, f) + Laid(s, i + |ElemsText(es, k, level, PLAIN)|, level, Outside, f)
    decreases es, |es| - k
  {
    hide Laid, Text, Lead, At;
    AtEnds(s, i, ElemsText(es, k, level, PLAIN));
    if k == |es| {
      NoPart(Laid(s, i, level, Outside, f));
    } else {
      PlainLead(k, level);
      var (text, rest) := (Text(es[k], level, PLAIN), ElemsText(es, k + 1, level, PLAIN));
      AtSplit(s, i, "," + text, rest);
      AtSplit(s, i, ",", text);
      AtFirst(s, i, ",");
      LaidComma(s, i, level, f);
      LeadSame(k, level, f);
      LaidValue(s, i + 1, es[k], level, f);
      LaidElems(s, i + 1 + |text|, es, k + 1, level, f);
      Joined4(Lead(k, level, f), Text(es[k], level, f), ElemsText(es, k + 1, level, f), Laid(s, i + 1 + |text| + |rest|, level, Outside, f));
    }
  }

  lemma LeadSame(k: nat, level: nat, f: Flags)
    requires k > 0
    ensures Lead(k, level, f) == Lead(1, level, f)
  {
  }

  lemma Joined4(a: string, b: string, c: string, d: string)
    ensures a + (b + (c + d)) == a + b + c + d
  {
  }

  /** The first element and the others. */
  lemma LaidContents(s: string, i: nat, es: seq<JValue>, level: nat, f: Flags)
    requires es != [] && (forall j | 0 <= j < |es| :: Printable(es[j])) && At(s, i, ElemsText(es, 0, level, PLAIN))
    ensures i + |ElemsText(es, 0, level, PLAIN)| <= |s|
    ensures Lead(0, level, f) + Laid(s, i, level, Outside, f)
            == ElemsText(es, 0, level, f) + Laid(s, i + |ElemsText(es, 0, level, PLAIN)|, level, Outside, f)
    decreases es, |es| + 1
  {
    hide Laid, Text, Lead, At;
    AtEnds(s, i, ElemsText(es, 0, level, PLAIN));
    PlainLead(0, level);
    var (text, rest) := (Text(es[0], level, PLAIN), ElemsText(es, 1, level, PLAIN));
    NoPart(text);
    AtSplit(s, i, text, rest);
    LaidValue(s, i, es[0], level, f);
    LaidElems(s, i + |text|, es, 1, level, f);
    Joined4(Lead(0, level, f), Text(es[0], level, f), ElemsText(es, 1, level, f), Laid(s, i + |text| + |rest|, level, Outside, f));
  }

  lemma {:induction false} ElemsEnd(es: seq<JValue>, k: nat, level: nat)
    requires k < |es| && (forall j | 0 <= j < |es| :: Printable(es[j]))
    ensures var t := ElemsText(es, k, level, PLAIN); t != "" && !Opens(t[|t| - 1]) && (k == 0 ==> !Closes(t[0]))
    decreases |es| - k
  {
    hide Text, Lead;
    PlainLead(k, level);
    TextEnds(es[k], level, PLAIN);
    if k + 1 < |es| { ElemsEnd(es, k + 1, level); }
  }

  /** A container without layout: its brackets, and where its contents start and end. */
  lemma PlainContainer(s: string, i: nat, open: char, inner: string, close: char)
    requires At(s, i, [open] + inner + [close]) && Opens(open) && Closes(close)
    requires inner == "" || (!Closes(inner[0]) && !Opens(inner[|inner| - 1]))
    ensures i + |inner| + 1 < |s| && s[i] == open && At(s, i + 1, inner) && s[i + 1 + |inner|] == close
    ensures Closes(s[i + 1]) <==> inner == ""
    ensures Opens(s[i + |inner|]) <==> inner == ""
  {
    AtSplit(s, i, [open] + inner, [close]);
    AtSplit(s, i, [open], inner);
    AtFirst(s, i, [open]);
    AtFirst(s, i + 1 + |inner|, [close]);
    if inner != "" {
      AtFirst(s, i + 1, inner);
      assert s[i + 1..i + 1 + |inner|][|inner| - 1] == inner[|inner| - 1];
    }
  }

  lemma LaidArray(s: string, i: nat, es: seq<JValue>, level: nat, f: Flags)
    requires Printable(JArray(es)) && At(s, i, Text(JArray(es), level, PLAIN))
    ensures i + |Text(JArray(es), level, PLAIN)| <= |s|
    ensures Laid(s, i, level, Outside, f)
            == Text(JArray(es), level, f) + Laid(s, i + |Text(JArray(es), level, PLAIN)|, level, Outside, f)
    decreases es, |es| + 2
  {
    hide Laid, ElemsText, Lead, CloseWs, NewLine, At;
    PlainLead(0, level);
    var inner := ElemsText(es, 0, level + 1, PLAIN);
    if es != [] { ElemsEnd(es, 0, level + 1); } else { NoElems(level + 1, PLAIN); }
    assert Text(JArray(es), level, PLAIN) == ['['] + inner + [']'];
    PlainContainer(s, i, '[', inner, ']');
    LaidOpen(s, i, level, f, es == []);
    LaidClose(s, i + 1 + |inner|, level, f, es == []);
    var tail := Laid(s, i + 2 + |inner|, level, Outside, f);
    var (a, b) := (['['] + NewLine(f), CloseWs(es == [], level, f) + [']']);
    if es != [] {
      LaidContents(s, i + 1, es, level + 1, f);
      Around(a, Lead(0, level + 1, f), Laid(s, i + 1, level + 1, Outside, f), ElemsText(es, 0, level + 1, f), b, tail);
    } else {
      NoElems(level + 1, f);
      Around(a, "", Laid(s, i + 1, level + 1, Outside, f), "", b, tail);
    }
    ArrayText(es, level, f);
  }

  lemma NoElems(level: nat, f: Flags)
    ensures ElemsText([], 0, level, f) == "" && MembersText([], 0, level, f) == ""
  {
  }

  lemma ArrayText(es: seq<JValue>, level: nat, f: Flags)
    ensures Text(JArray(es), level, f)
            == ['['] + NewLine(f) + ElemsText(es, 0, level + 1, f) + (CloseWs(es == [], level, f) + [']'])
  {
    hide ElemsText, CloseWs, NewLine;
  }

  /** Opening bracket a, contents x laid out as y, closing bracket b. */
  lemma Around(a: string, lead: string, x: string, y: string, b: string, tail: string)
    requires lead + x == y + (b + tail)
    ensures a + lead + x == a + y + b + tail
  {
    assert a + lead + x == a + (lead + x);
  }

  /** A key, its quotes and its colon. */
  lemma LaidKey(s: string, i: nat, key: string, depth: nat, f: Flags)
    requires At(s, i, KeyText(key, PLAIN))
    ensures i + |KeyText(key, PLAIN)| <= |s|
    ensures Laid(s, i, depth, Outside, f) == KeyText(key, f) + Laid(s, i + |KeyText(key, PLAIN)|, depth, Outside, f)
  {
    hide Laid, Escape, At;
    AtEnds(s, i, KeyText(key, PLAIN));
    var (plain, laid) := ("\"" + Escape(key, PLAIN) + "\"", "\"" + Escape(key, f) + "\"");
    assert KeyText(key, PLAIN) == plain + ":";
    AtSplit(s, i, plain, ":");
    AtFirst(s, i + |plain|, ":");
    LaidString(s, i, key, depth, f);
    LaidColon(s, i + |plain|, depth, f);
    var tail := Laid(s, i + |plain| + 1, depth, Outside, f);
    assert laid + ([':'] + Blank(f) + tail) == laid + [':'] + Blank(f) + tail;
    assert KeyText(key, f) == laid + [':'] + Blank(f);
  }

  /** One member, without what stands before it. */
  function MemberText(m: Member, level: nat, f: Flags): string { KeyText(m.key, f) + Text(m.val, level, f) }

  lemma LaidMember(s: string, i: nat, m: Member, level: nat, f: Flags)
    requires Printable(m.val) && At(s, i, MemberText(m, level, PLAIN))
    ensures i + |MemberText(m, level, PLAIN)| <= |s|
    ensures Laid(s, i, level, Outside, f) == MemberText(m, level, f) + Laid(s, i + |MemberText(m, level, PLAIN)|, level, Outside, f)
    decreases m, 1
  {
    hide Laid, Text, KeyText, At;
    AtEnds(s, i, MemberText(m, level, PLAIN));
    var (key, text) := (KeyText(m.key, PLAIN), Text(m.val, level, PLAIN));
    AtSplit(s, i, key, text);
    LaidKey(s, i, m.key, level, f);
    LaidValue(s, i + |key|, m.val, level, f);
    Joined(KeyText(m.key, f), Text(m.val, level, f), Laid(s, i + |key| + |text|, level, Outside, f));
  }

  lemma MembersSplit(ms: seq<Member>, k: nat, level: nat, f: Flags)
    requires k < |ms|
    ensures MembersText(ms, k, level, f) == Lead(k, level, f) + MemberText(ms[k], level, f) + MembersText(ms, k + 1, level, f)
  {
    hide Lead, KeyText, Text;
    var (a, b, c, d) := (Lead(k, level, f), KeyText(ms[k].key, f), Text(ms[k].val, level, f), MembersText(ms, k + 1, level, f));
    assert a + b + c + d == a + (b + c) + d;
  }

  /** The members from the k-th on, k > 0, each with its comma. */
  lemma LaidMembers(s: string, i: nat, ms: seq<Member>, k: nat, level: nat, f: Flags)
    requires 0 < k <= |ms| && (forall j | 0 <= j < |ms| :: Printable(ms[j].val)) && At(s, i, MembersText(ms, k, level, PLAIN))
    ensures i + |MembersText(ms, k, level, PLAIN)| <= |s|
    ensures Laid(s, i, level, Outside, f)
            == MembersText(ms, k, level, f) + Laid(s, i + |MembersText(ms, k, level, PLAIN)|, level, Outside, f)
    decreases ms, |ms| - k
  {
    hide Laid, MemberText, MembersText, Lead, At;
    AtEnds(s, i, MembersText(ms, k, level, PLAIN));
    if k == |ms| {
      NoMembers(ms, level, PLAIN);
      NoMembers(ms, level, f);
      NoPart(Laid(s, i, level, Outside, f));
    } else {
      PlainLead(k, level);
      MembersSplit(ms, k, level, PLAIN);
      MembersSplit(ms, k, level, f);
      var (text, rest) := (MemberText(ms[k], level, PLAIN), MembersText(ms, k + 1, level, PLAIN));
      AtSplit(s, i, "," + text, rest);
      AtSplit(s, i, ",", text);
      AtFirst(s, i, ",");
      LaidComma(s, i, level, f);
      LeadSame(k, level, f);
      LaidMember(s, i + 1, ms[k], level, f);
      LaidMembers(s, i + 1 + |text|, ms, k + 1, level, f);
      Joined4(Lead(k, level, f), MemberText(ms[k], level, f), MembersText(ms, k + 1, level, f),
              Laid(s, i + 1 + |text| + |rest|, level, Outside, f));
    }
  }

  lemma NoMembers(ms: seq<Member>, level: nat, f: Flags)
    ensures MembersText(ms, |ms|, level, f) == ""
  {
  }

  /** The first member and the others. */
  lemma LaidEntries(s: string, i: nat, ms: seq<Member>, level: nat, f: Flags)
    requires ms != [] && (forall j | 0 <= j < |ms| :: Printable(ms[j].val)) && At(s, i, MembersText(ms, 0, level, PLAIN))
    ensures i + |MembersText(ms, 0, level, PLAIN)| <= |s|
    ensures Lead(0, level, f) + Laid(s, i, level, Outside, f)
            == MembersText(ms, 0, level, f) + Laid(s, i + |MembersText(ms, 0, level, PLAIN)|, level, Outside, f)
    decreases ms, |ms| + 1
  {
    hide Laid, MemberText, MembersText, Lead, At;
    AtEnds(s, i, MembersText(ms, 0, level, PLAIN));
    PlainLead(0, level);
    MembersSplit(ms, 0, level, PLAIN);
    MembersSplit(ms, 0, level, f);
    var (text, rest) := (MemberText(ms[0], level, PLAIN), MembersText(ms, 1, level, PLAIN));
    NoPart(text);
    AtSplit(s, i, text, rest);
    LaidMember(s, i, ms[0], level, f);
    LaidMembers(s, i + |text|, ms, 1, level, f);
    Joined4(Lead(0, level, f), MemberText(ms[0], level, f), MembersText(ms, 1, level, f),
            Laid(s, i + |text| + |rest|, level, Outside, f));
  }

  lemma {:induction false} MembersEnd(ms: seq<Member>, k: nat, level: nat)
    requires k < |ms| && (forall j | 0 <= j < |ms| :: Printable(ms[j].val))
    ensures var t := MembersText(ms, k, level, PLAIN); t != "" && !Opens(t[|t| - 1]) && (k == 0 ==> !Closes(t[0]))
    decreases |ms| - k
  {
    hide Text, Lead, Escape;
    PlainLead(k, level);
    TextEnds(ms[k].val, level, PLAIN);
    if k + 1 < |ms| { MembersEnd(ms, k + 1, level); }
  }

  lemma LaidObject(s: string, i: nat, ms: seq<Member>, level: nat, f: Flags)
    requires Printable(JObject(ms)) && At(s, i, Text(JObject(ms), level, PLAIN))
    ensures i + |Text(JObject(ms), level, PLAIN)| <= |s|
    ensures Laid(s, i, level, Outside, f)
            == Text(JObject(ms), level, f) + Laid(s, i + |Text(JObject(ms), level, PLAIN)|, level, Outside, f)
    decreases ms, |ms| + 2
  {
    hide Laid, MembersText, Lead, CloseWs, NewLine, At;
    PlainLead(0, level);
    var inner := MembersText(ms, 0, level + 1, PLAIN);
    if ms != [] { MembersEnd(ms, 0, level + 1); } else { NoElems(level + 1, PLAIN); }
    assert Text(JObject(ms), level, PLAIN) == ['{'] + inner + ['}'];
    PlainContainer(s, i, '{', inner, '}');
    LaidOpen(s, i, level, f, ms == []);
    LaidClose(s, i + 1 + |inner|, level, f, ms == []);
    var tail := Laid(s, i + 2 + |inner|, level, Outside, f);
    var (a, b) := (['{'] + NewLine(f), CloseWs(ms == [], level, f) + ['}']);
    if ms != [] {
      LaidEntries(s, i + 1, ms, level + 1, f);
      Around(a, Lead(0, level + 1, f), Laid(s, i + 1, level + 1, Outside, f), MembersText(ms, 0, level + 1, f), b, tail);
    } else {
      NoElems(level + 1, f);
      Around(a, "", Laid(s, i + 1, level + 1, Outside, f), "", b, tail);
    }
    ObjectText(ms, level, f);
  }

  lemma ObjectText(ms: seq<Member>, level: nat, f: Flags)
    ensures Text(JObject(ms), level, f)
            == ['{'] + NewLine(f) + MembersText(ms, 0, level + 1, f) + (CloseWs(ms == [], level, f) + ['}'])
  {
    hide MembersText, CloseWs, NewLine;
  }

  // ------------------------------------------------------------ documents

  /** What is printed with any flags is what is printed without, laid out. */
  lemma PrintedIsLaid(v: JValue, f: Flags)
    requires Printable(v)
    ensures Text(v, 0, f) == Laid(Text(v, 0, PLAIN), 0, 0, Outside, f)
  {
    hide Text;
    var plain := Text(v, 0, PLAIN);
    LaidValue(plain, 0, v, 0, f);
    NothingLeft(plain, 0, f);
    assert Text(v, 0, f) + "" == Text(v, 0, f);
  }

  lemma NothingLeft(s: string, depth: nat, f: Flags)
    ensures Laid(s, |s|, depth, Outside, f) == ""
  {
  }

  // ------------------------------------------------------------ strings

  lemma {:induction false} EscapeBoth(a: string, b: string, f: Flags)
    ensures Escape(a + b, f) == Escape(a, f) + Escape(b, f)
  {
    hide EscapeChar;
    if a == "" {
      assert a + b == b;
    } else {
      EscapeBoth(a[1..], b, f);
      assert (a + b)[1..] == a[1..] + b;
    }
  }

  /** A string is printed character by character, ... */
  lemma StringsPrinted(a: string, b: string, f: Flags)
    ensures var (x, y) := (Text(JString(a), 0, f), Text(JString(b), 0, f));
            && |x| >= 2 && |y| >= 2 && Text(JString(""), 0, f) == "\"\""
            && Text(JString(a + b), 0, f) == x[..|x| - 1] + y[1..]
  {
    hide Escape;
    EscapeBoth(a, b, f);
    NoneEscaped(f);
  }

  lemma NoneEscaped(f: Flags)
    ensures Escape("", f) == ""
  {
  }

  /** ... and its characters by this table. */
  lemma CharsPrinted(c: char, f: Flags)
    ensures Text(JString([c]), 0, f) == "\"" + Printed(c, f) + "\""
  {
    hide EscapeChar, Printed;
    NoneEscaped(f);
    assert [c][1..] == "" && Escape([c], f) == EscapeChar(c, f) + Escape([c][1..], f) == EscapeChar(c, f);
    if c < ' ' { ControlPrinted(c, f); } else { OtherPrinted(c, f); }
  }

  lemma ControlPrinted(c: char, f: Flags)
    requires c < ' '
    ensures EscapeChar(c, f) == Printed(c, f)
  {
    var n := c as nat;
    assert HexDigit(n / 16) == if n < 16 then '0' else '1';
    assert "\\u00" + [HexDigit(n / 16), HexDigit(n % 16)] == ['\\', 'u', '0', '0', HexDigit(n / 16), HexDigit(n % 16)];
  }

  lemma OtherPrinted(c: char, f: Flags)
    requires c >= ' '
    ensures EscapeChar(c, f) == Printed(c, f)
  {
  }

  function Printed(c: char, f: Flags): string {
    match c as int
    case 8 => ['\\', 'b']
    case 9 => ['\\', 't']
    case 10 => ['\\', 'n']
    case 12 => ['\\', 'f']
    case 13 => ['\\', 'r']
    case 34 => ['\\', '"']
    case 92 => ['\\', '\\']
    case 47 => if f.noSlash then ['/'] else ['\\', '/']
    case n => if n < 32 then ['\\', 'u', '0', '0', if n < 16 then '0' else '1', "0123456789abcdef"[n % 16]] else [c]
  }
}
