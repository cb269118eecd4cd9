/** What the serializers print is JSON by RFC 7159: a document of the grammar that means the
    value, for every choice of flags. */
module GrammarPrint {
  import opened Decimals
  import opened JsonValue
  import opened JsonText
  import opened Tokener
  import opened Grammar
  import opened RoundTrip
  import opened GrammarStrings
  import opened GrammarParse

  // ------------------------------------------------------------ layout

  function GapOf(ws: string): Gap { if ws == "" then [] else [Ws(ws[0])] + GapOf(ws[1..]) }

  predicate PlainWs(ws: string) { forall j | 0 <= j < |ws| :: ws[j] in " \t\n" }

  lemma {:induction false} GapIs(ws: string)
    requires PlainWs(ws)
    ensures Filling(GapOf(ws)) == ws && RfcGap(GapOf(ws))
  {
    if ws != "" {
      GapIs(ws[1..]);
      var gap := GapOf(ws);
      assert gap[0] == Ws(ws[0]) && gap[1..] == GapOf(ws[1..]);
      assert [ws[0]] + ws[1..] == ws;
      forall i | 0 <= i < |gap| ensures gap[i].Ws? && gap[i].c in " \t\n\r" {
        if i > 0 { assert gap[i] == GapOf(ws[1..])[i - 1]; }
      }
    }
  }

  /** What stands before a child: on a line of its own, or right behind the comma. */
  function Before(level: nat, f: Flags): string { NewLine(f) + LeadWs(level, f) }

  lemma LayoutIsPlain(level: nat, f: Flags, empty: bool)
    ensures PlainWs(Before(level, f)) && PlainWs(CloseWs(empty, level, f)) && PlainWs(NewLine(f) + CloseWs(true, level, f))
    ensures PlainWs(if f.spaced then " " else "")
  {
    assert PlainWs(Indent(level, f)) && PlainWs(NewLine(f));
  }

  // ------------------------------------------------------------ strings

  function PartOf(c: char, f: Flags): Part {
    var e := EscapeChar(c, f);
    if |e| == 2 then Short(e[1])
    else if |e| == 6 then Hex(e[2], e[3], e[4], e[5])
    else Raw(c)
  }

  lemma PartIs(c: char, f: Flags)
    ensures var p := PartOf(c, f);
            && PartText(p) == EscapeChar(c, f) && LegalPart(p, '"') && (p.Raw? ==> p.c >= ' ')
            && (p.Raw? ==> p.c == c) && (p.Short? ==> ShortValue(p.c) == c) && (p.Hex? ==> UnitValue(p) == c as nat < 0x80)
  {
    if ShortEscape(c, f) == "" && c < ' ' {
      var (x, y) := (HexDigit(c as nat / 16), HexDigit(c as nat % 16));
      assert EscapeChar(c, f) == ['\\', 'u', '0', '0', x, y];
      HexIs(c as nat / 16);
      HexIs(c as nat % 16);
    }
  }

  lemma HexIs(n: nat)
    requires n < 16
    ensures HexChar(HexDigit(n)) && HexNumber(HexDigit(n)) == n
  {
  }

  function PartsOf(s: string, f: Flags): seq<Part> { if s == "" then [] else [PartOf(s[0], f)] + PartsOf(s[1..], f) }

  lemma {:induction false} PartsAre(s: string, f: Flags)
    ensures PartsText(PartsOf(s, f)) == Escape(s, f) && RfcParts(PartsOf(s, f)) && Chars(PartsOf(s, f), 0) == s
  {
    hide EscapeChar, PartText, LegalPart, Unit;
    if s != "" {
      var ps := PartsOf(s, f);
      assert ps[0] == PartOf(s[0], f) && ps[1..] == PartsOf(s[1..], f);
      PartIs(s[0], f);
      PartsAre(s[1..], f);
      assert [s[0]] + s[1..] == s;
      CharsOne(ps, s[0]);
      forall i | 0 <= i < |ps| ensures LegalPart(ps[i], '"') && (ps[i].Raw? ==> ps[i].c >= ' ') {
        if i > 0 { assert ps[i] == PartsOf(s[1..], f)[i - 1]; }
      }
    }
  }

  lemma CharsOne(ps: seq<Part>, c: char)
    requires ps != []
    requires var p := ps[0];
             (p.Raw? ==> p.c == c) && (p.Short? ==> ShortValue(p.c) == c) && (p.Hex? ==> UnitValue(p) == c as nat < 0x80)
    ensures Chars(ps, 0) == [c] + Chars(ps[1..], 0)
  {
    if ps[0].Hex? {
      assert Unit(0, UnitValue(ps[0])) == ("" + [c], 0);
      assert "" + [c] == [c];
    } else {
      CharsFirst(ps);
    }
  }

  // ------------------------------------------------------------ values

  function Tree(v: JValue, level: nat, f: Flags): Node
    decreases v, 0
  {
    match v
    case JNull => Word("null")
    case JBool(b) => Word(if b then "true" else "false")
    case JInt(n) => Numeral(IntText(n))
    case JDouble(text) => Numeral(text)
    case JString(s) => Quote('"', PartsOf(s, f))
    case JArray(es) => List(TreeItems(es, 0, level, f))
    case JObject(ms) => Dict(TreeEntries(ms, 0, level, f))
  }

  /** The layout before the closing bracket of a container on the given level. */
  function PadOf(empty: bool, level: nat, f: Flags): string { (if empty then NewLine(f) else "") + CloseWs(empty, level, f) }

  function TreeItems(es: seq<JValue>, k: nat, level: nat, f: Flags): Items
    requires k <= |es|
    decreases es, |es| - k
  {
    if k == |es| then Last(GapOf(PadOf(es == [], level, f)))
    else Item([], GapOf(Before(level + 1, f)), Tree(es[k], level + 1, f), TreeItems(es, k + 1, level, f))
  }

  function TreeEntries(ms: seq<Member>, k: nat, level: nat, f: Flags): Entries
    requires k <= |ms|
    decreases ms, |ms| - k
  {
    if k == |ms| then Stop(GapOf(PadOf(ms == [], level, f)))
    else
      Entry([], GapOf(Before(level + 1, f)), '"', PartsOf(ms[k].key, f), [], GapOf(if f.spaced then " " else ""),
            Tree(ms[k].val, level + 1, f), TreeEntries(ms, k + 1, level, f))
  }

  lemma IntIsRfc(n: int)
    requires INT64_MIN <= n <= INT64_MAX
    ensures RfcInteger(IntText(n)) && NumeralValue(IntText(n)) == JInt(n)
  {
    hide Digits, DecVal, NumeralValue;
    var m := if n < 0 then -n else n;
    var (d, s) := (Digits(m), IntText(n));
    DigitsValue(m);
    ZeroDigits();
    FirstDigit(d);
    if n < 0 { assert s[0] == '-' && s[1..] == d; }
    RfcIntegerMeans(s);
  }

  lemma ZeroDigits()
    ensures Digits(0) == "0"
  {
  }

  lemma WordsAre()
    ensures WordValue("null") == JNull && WordValue("true") == JBool(true) && WordValue("false") == JBool(false)
  {
    FoldWords();
    hide Fold;
  }

  /** The tree of a value: its text, its meaning, and that it is JSON. */
  ghost predicate IsTree(v: JValue, level: nat, f: Flags) {
    var n := Tree(v, level, f);
    Rfc(n) && Yield(n) == Text(v, level, f) && Meaning(n) == v
  }

  lemma TreeIs(v: JValue, level: nat, f: Flags)
    requires Printable(v)
    ensures IsTree(v, level, f)
    decreases v, 0
  {
    hide Escape, IntText, ElemsText, MembersText, CloseWs, NewLine, RfcItems, RfcEntries, ItemsYield, EntriesYield, Values, Collect, Fold,
         RfcInteger, RfcParts, Chars, PartsText, NumeralValue, WordValue;
    WordsAre();
    match v
    case JNull =>
    case JBool(_) =>
    case JInt(n) => IntIsRfc(n);
    case JString(s) =>
      PartsAre(s, f);
      assert ['"'] + (Escape(s, f) + ['"']) == "\"" + Escape(s, f) + "\"";
    case JArray(es) => ArrayTree(es, level, f);
    case JObject(ms) => ObjectTree(ms, level, f);
  }

  lemma ArrayTree(es: seq<JValue>, level: nat, f: Flags)
    requires Printable(JArray(es))
    ensures IsTree(JArray(es), level, f)
    decreases es, |es| + 1
  {
    hide ElemsText, CloseWs, NewLine, RfcItems, ItemsYield, Values;
    ItemsTree(es, 0, level, f);
    assert es[0..] == es;
    var (a, b, c) := (NewLine(f), ElemsText(es, 0, level + 1, f), CloseWs(es == [], level, f));
    assert ['['] + (a + b + c + [']']) == "[" + a + b + c + "]";
  }

  lemma ObjectTree(ms: seq<Member>, level: nat, f: Flags)
    requires Printable(JObject(ms))
    ensures IsTree(JObject(ms), level, f)
    decreases ms, |ms| + 1
  {
    hide MembersText, CloseWs, NewLine, RfcEntries, EntriesYield, Collect;
    EntriesTree(ms, 0, level, f);
    assert ms[..0] == [];
    var (a, b, c) := (NewLine(f), MembersText(ms, 0, level + 1, f), CloseWs(ms == [], level, f));
    assert ['{'] + (a + b + c + ['}']) == "{" + a + b + c + "}";
  }

  /** The line break behind the opening bracket belongs to the first child. */
  function Opening(first: bool, f: Flags): string { if first then NewLine(f) else "" }

  lemma ItemsTree(es: seq<JValue>, k: nat, level: nat, f: Flags)
    requires Printable(JArray(es)) && k <= |es|
    ensures RfcItems(TreeItems(es, k, level, f)) && Values(TreeItems(es, k, level, f)) == es[k..]
    ensures ItemsYield(TreeItems(es, k, level, f), k == 0)
            == Opening(k == 0, f) + ElemsText(es, k, level + 1, f) + CloseWs(es == [], level, f)
    decreases es, |es| - k
  {
    hide Text, Yield, Rfc, Meaning, CloseWs, NewLine, LeadWs, Lead, Filling, RfcGap, GapOf, PlainWs, Before;
    if k == |es| {
      LastPad(es == [], level, f);
      assert Opening(k == 0, f) + "" == Opening(k == 0, f);
    } else {
      TreeIs(es[k], level + 1, f);
      ItemsTree(es, k + 1, level, f);
      GapBefore(k, level + 1, f);
      assert [es[k]] + es[k + 1..] == es[k..];
      var tail := ElemsText(es, k + 1, level + 1, f) + CloseWs(es == [], level, f);
      NothingBefore(tail);
      NothingBefore(ElemsText(es, k + 1, level + 1, f));
      Regroup(Comma([], k == 0), Before(level + 1, f), Opening(k == 0, f), Lead(k, level + 1, f), Text(es[k], level + 1, f),
              ElemsText(es, k + 1, level + 1, f), CloseWs(es == [], level, f));
    }
  }

  /** comma + before == opening + lead, and what comes behind. */
  lemma Regroup(comma: string, before: string, opening: string, lead: string, text: string, rest: string, close: string)
    requires comma + before == opening + lead
    ensures comma + (before + (text + (rest + close))) == opening + (lead + text + rest) + close
  {
    assert comma + (before + (text + (rest + close))) == comma + before + (text + (rest + close));
    assert opening + (lead + text + rest) + close == opening + lead + (text + (rest + close));
  }

  lemma LastPad(empty: bool, level: nat, f: Flags)
    ensures var gap := GapOf(PadOf(empty, level, f)); RfcGap(gap) && Filling(gap) == Opening(empty, f) + CloseWs(empty, level, f)
  {
    LayoutIsPlain(level, f, empty);
    hide NewLine, CloseWs;
    assert "" + CloseWs(empty, level, f) == CloseWs(empty, level, f);
    GapIs(PadOf(empty, level, f));
  }

  lemma GapBefore(k: nat, level: nat, f: Flags)
    ensures RfcGap([]) && RfcGap(GapOf(Before(level, f))) && Filling(GapOf(Before(level, f))) == Before(level, f)
    ensures Comma([], k == 0) + Before(level, f) == Opening(k == 0, f) + Lead(k, level, f)
  {
    LayoutIsPlain(level, f, true);
    GapIs(Before(level, f));
    hide NewLine, LeadWs;
    assert Filling([]) == "";
    assert "" + Before(level, f) == NewLine(f) + ("" + LeadWs(level, f));
    assert "" + [','] + (NewLine(f) + LeadWs(level, f)) == "" + ("," + NewLine(f) + LeadWs(level, f));
  }

  lemma KeyIs(key: string, f: Flags)
    requires '\0' !in key
    ensures var (ps, gap) := (PartsOf(key, f), GapOf(if f.spaced then " " else ""));
            && RfcParts(ps) && RfcGap(gap) && KeyOf(ps) == key && KeyYield('"', ps, []) + Filling(gap) == KeyText(key, f)
  {
    hide Escape, PartsOf, Chars, PartsText, GapOf, RfcGap, RfcParts, Filling, PlainWs;
    var blank := if f.spaced then " " else "";
    PartsAre(key, f);
    LayoutIsPlain(0, f, true);
    GapIs(blank);
    NoFilling("", "");
    KeyRegroup(Escape(key, f), Filling([]), blank);
  }

  lemma KeyRegroup(s: string, none: string, blank: string)
    requires none == ""
    ensures ['"'] + (s + (['"'] + (none + [':']))) + blank == "\"" + s + "\":" + blank
  {
    assert none + [':'] == ":";
    assert ['"'] + ":" == "\":";
    assert ['"'] + (s + "\":") + blank == "\"" + s + "\":" + blank;
  }

  lemma EntryRegroup(comma: string, before: string, opening: string, lead: string, name: string, after: string, key: string,
                     text: string, rest: string, close: string)
    requires comma + before == opening + lead && name + after == key
    ensures comma + (before + (name + (after + (text + (rest + close))))) == opening + (lead + key + text + rest) + close
  {
    var tail := text + (rest + close);
    assert comma + (before + (name + (after + tail))) == comma + before + (name + after + tail);
    assert opening + (lead + key + text + rest) + close == opening + lead + (key + tail);
  }

  lemma EntriesTree(ms: seq<Member>, k: nat, level: nat, f: Flags)
    requires Printable(JObject(ms)) && k <= |ms|
    ensures RfcEntries(TreeEntries(ms, k, level, f)) && Collect(TreeEntries(ms, k, level, f), ms[..k]) == ms
    ensures EntriesYield(TreeEntries(ms, k, level, f), k == 0)
            == Opening(k == 0, f) + MembersText(ms, k, level + 1, f) + CloseWs(ms == [], level, f)
    decreases ms, |ms| - k
  {
    hide Text, Yield, Rfc, Meaning, CloseWs, NewLine, LeadWs, Lead, Filling, RfcGap, GapOf, PlainWs, Before, KeyOf, KeyYield, KeyText,
         RfcParts, PartsOf, AddMember, UniqueKeys;
    if k == |ms| {
      LastPad(ms == [], level, f);
      assert Opening(k == 0, f) + "" == Opening(k == 0, f) && ms[..k] == ms;
    } else {
      TreeIs(ms[k].val, level + 1, f);
      EntriesTree(ms, k + 1, level, f);
      GapBefore(k, level + 1, f);
      KeyIs(ms[k].key, f);
      AddNext(ms, k);
      var (name, after) := (KeyYield('"', PartsOf(ms[k].key, f), []), Filling(GapOf(if f.spaced then " " else "")));
      var (text, rest, close) := (Text(ms[k].val, level + 1, f), MembersText(ms, k + 1, level + 1, f), CloseWs(ms == [], level, f));
      NothingBefore(rest + close);
      NothingBefore(rest);
      EntryRegroup(Comma([], k == 0), Before(level + 1, f), Opening(k == 0, f), Lead(k, level + 1, f), name, after, KeyText(ms[k].key, f),
                   text, rest, close);
    }
  }

  /** What is printed is a document of RFC 7159 that means the value. */
  lemma PrintedIsJson(v: JValue, f: Flags)
    requires Printable(v)
    ensures var d := Document([], Tree(v, 0, f), []);
            RfcDocument(d) && DocumentText(d) == Text(v, 0, f) && Meaning(d.node) == v
  {
    hide Text, Rfc, Yield, Meaning;
    TreeIs(v, 0, f);
    assert "" + Text(v, 0, f) + "" == Text(v, 0, f);
  }
}
