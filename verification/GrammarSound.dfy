/** What a tokener accepts is a document of the grammar, and it returns what the document
    means: the exact language of json_tokener_parse_ex, strict or not. */
module GrammarSound {
  import opened Decimals
  import opened JsonValue
  import opened Sequences
  import opened Tokener
  import opened Grammar
  import opened RoundTrip
  import opened GrammarStrings
  import opened GrammarParse
  import opened GrammarScan
  import Quirks

  // ------------------------------------------------------------ values

  /** The first character of a value chooses its kind. */
  lemma StartSound(t: Tok, buf: string, i: nat) returns (u: Tok)
    requires Wins(t, buf, i) && t.top == RESET_LEVEL && i < |buf| && !Skipped(buf[i], t.cfg.strict)
    ensures buf[i] != '\0'
    ensures if buf[i] == '[' then Wins(u, buf, i + 1) && u == t.(top := Level(EatWs, Array, JArray([]), ""))
            else if buf[i] == '{' then Wins(u, buf, i + 1) && u == t.(top := Level(EatWs, FieldStart, JObject([]), ""))
            else if LegalQuote(buf[i]) then
              && (buf[i] == '\'' ==> !t.cfg.strict)
              && Wins(u, buf, i + 1) && u == t.(top := RESET_LEVEL.(state := Str), pb := "", quote := buf[i])
            else if IsDigit(buf[i]) || buf[i] == '-' then true
            else && Wins(u, buf, i) && u == t.(top := RESET_LEVEL.(state := u.top.state), pb := "", stPos := 0)
                 && (u.top.state == Null || u.top.state == Boolean || u.top.state == Inf)
  {
    hide Run, Conclude, Micro, TopOk, ParentsOk, StateRank, StepOk, Plain, Skipped;
    AtToken(t, buf, i);
    var t1 := t.To(Start);
    SameRun(t, buf, i, t1, i);
    WinStep(t1, buf, i);
    StartCase(t1, buf, i);
    u := Micro(t1, buf, i).t;
  }

  lemma StartCase(t: Tok, buf: string, i: nat)
    requires Wf(t) && t.top.state == Start && i < |buf|
    ensures Micro(t, buf, i) == StepStart(t, buf[i]) && Micro(t, buf, i).t.top.state != EscapeUnicode
    ensures buf[i] == '\0' ==> Micro(t, buf, i).Out?
  {
    hide TopOk, ParentsOk, StateRank, StepOk, Plain;
  }

  /** Brackets or quotes around what has been found. */
  lemma AroundItems(t: Tok, buf: string, i: nat, items: Items)
    requires Wf(t) && i < |buf| && buf[i] == '[' && At(buf, i + 1, ItemsYield(items, true) + [']'])
    requires LegalItems(items, true, t.cfg) && ItemsNested(items, t.cfg.maxDepth - 2 - |t.below|)
    ensures Legal(List(items), t.cfg) && Nested(List(items), t.cfg.maxDepth - 1 - |t.below|) && At(buf, i, Yield(List(items)))
  {
    hide ItemsYield, LegalItems, ItemsNested, At, TopOk, ParentsOk;
    OneThen(buf, i, ItemsYield(items, true) + [']']);
  }

  lemma AroundEntries(t: Tok, buf: string, i: nat, e: Entries)
    requires Wf(t) && i < |buf| && buf[i] == '{' && At(buf, i + 1, EntriesYield(e, true) + ['}'])
    requires LegalEntries(e, true, t.cfg) && EntriesNested(e, t.cfg.maxDepth - 2 - |t.below|)
    ensures Legal(Dict(e), t.cfg) && Nested(Dict(e), t.cfg.maxDepth - 1 - |t.below|) && At(buf, i, Yield(Dict(e)))
  {
    hide EntriesYield, LegalEntries, EntriesNested, At, TopOk, ParentsOk;
    OneThen(buf, i, EntriesYield(e, true) + ['}']);
  }

  lemma AroundParts(t: Tok, buf: string, i: nat, ps: seq<Part>)
    requires Wf(t) && i < |buf| && LegalQuote(buf[i]) && (buf[i] == '\'' ==> !t.cfg.strict)
    requires At(buf, i + 1, PartsText(ps) + [buf[i]]) && LegalParts(ps, buf[i])
    ensures var n := Quote(buf[i], ps);
            Legal(n, t.cfg) && Nested(n, t.cfg.maxDepth - 1 - |t.below|) && At(buf, i, Yield(n))
  {
    hide PartsText, LegalParts, At, TopOk, ParentsOk;
    OneThen(buf, i, PartsText(ps) + [buf[i]]);
  }

  lemma NotNested(t: Tok, n: Node)
    requires Wf(t) && (n.Word? || n.Numeral?)
    ensures Nested(n, t.cfg.maxDepth - 1 - |t.below|)
  {
    hide TopOk, ParentsOk;
  }

  lemma {:induction false} NodeSound(t: Tok, buf: string, i: nat) returns (n: Node)
    requires Wins(t, buf, i) && t.top == RESET_LEVEL && i < |buf| && !Skipped(buf[i], t.cfg.strict)
    ensures Legal(n, t.cfg) && Nested(n, t.cfg.maxDepth - 1 - |t.below|)
    ensures At(buf, i, Yield(n)) && EndIsSeen(n, buf, i + |Yield(n)|)
    decreases |buf| - i, 0
  {
    hide Run, Conclude, Wf, At, Yield, Legal, Nested, LegalParts, PartsText, ItemsYield, EntriesYield, LegalItems, LegalEntries,
         ItemsNested, EntriesNested, Skipped;
    var u := StartSound(t, buf, i);
    if buf[i] == '[' {
      var items := ItemsSound(u, buf, i + 1, true, []);
      n := List(items);
      AroundItems(t, buf, i, items);
    } else if buf[i] == '{' {
      var entries := EntriesSound(u, buf, i + 1, true, []);
      n := Dict(entries);
      AroundEntries(t, buf, i, entries);
    } else if LegalQuote(buf[i]) {
      var ps := PartsSound(u, buf, i + 1);
      n := Quote(buf[i], ps);
      AroundParts(t, buf, i, ps);
    } else if IsDigit(buf[i]) || buf[i] == '-' {
      n := NumberSound(t, buf, i);
      NotNested(t, n);
    } else {
      var w := WordSound(u, buf, i);
      n := Word(w);
      WordIs(w, t.cfg);
      NotNested(t, n);
    }
  }

  lemma WordIs(w: string, cfg: Config)
    requires LegalWord(w, cfg.strict)
    ensures Legal(Word(w), cfg) && Yield(Word(w)) == w
  {
  }

  lemma PushSound(t: Tok, buf: string, i: nat) returns (u: Tok)
    requires Wins(t, buf, i) && t.top.saved == t.top.state && i < |buf|
    requires t.top.state == ObjValue || ((t.top.state == Array || t.top.state == ArrayAfterSep) && buf[i] != ']')
    ensures Wins(u, buf, i) && u.top == RESET_LEVEL && u.below == t.below + [WaitingFor(t.top)] && u.cfg == t.cfg
    ensures ParentOk(WaitingFor(t.top))
  {
    hide Run, Conclude, Micro, ParentsOk, StateRank, StepOk, Plain;
    WinStep(t, buf, i);
    PushCase(t, buf, i);
    u := Micro(t, buf, i).t;
  }

  lemma PushCase(t: Tok, buf: string, i: nat)
    requires Wf(t) && i < |buf|
    ensures t.top.state == ObjValue ==> Micro(t, buf, i) == Push(t, ObjValueAdd)
    ensures t.top.state == Array || t.top.state == ArrayAfterSep ==> Micro(t, buf, i) == StepArray(t, buf[i])
  {
    hide TopOk, ParentsOk, StateRank, StepOk, Plain, Push, StepArray;
  }

  lemma PopSound(t: Tok, buf: string, i: nat, v: JValue) returns (u: Tok)
    requires Wins(t, buf, i) && t.below != [] && t.top == Level(EatWs, Finish, v, "")
    ensures ParentOk(t.below[|t.below| - 1]) && Wins(u, buf, i) && u.cfg == t.cfg
    ensures u.below == t.below[..|t.below| - 1] && u.top == Added(t.below[|t.below| - 1], v)
  {
    hide Run, Conclude, Wf, At, Filling, LegalGap, Added, ParentOk;
    var gap := BehindChild(t, buf, i);
    var j := i + |Filling(gap)|;
    OneAt(buf, j);
    JoinAt(buf, i, Filling(gap), [buf[j]]);
    u := PopGap(t, buf, i, v, gap, [buf[j]]);
    SameRun(t, buf, i, u, i);
  }

  /** A child: the parent waits for a value at its first character. */
  lemma ChildSound(t: Tok, buf: string, i: nat) returns (n: Node, u: Tok)
    requires Wins(t, buf, i) && t.top.saved == t.top.state && i < |buf| && !Skipped(buf[i], t.cfg.strict)
    requires t.top.state == ObjValue || ((t.top.state == Array || t.top.state == ArrayAfterSep) && buf[i] != ']')
    ensures Legal(n, t.cfg) && Nested(n, t.cfg.maxDepth - 2 - |t.below|) && At(buf, i, Yield(n)) && Yield(n) != ""
    ensures i + |Yield(n)| <= |buf| && Wins(u, buf, i + |Yield(n)|) && u.cfg == t.cfg && u.below == t.below
    ensures ParentOk(WaitingFor(t.top)) && u.top == Added(WaitingFor(t.top), Meaning(n))
    decreases |buf| - i, 1
  {
    hide Run, Conclude, Wf, At, Yield, Legal, Meaning, Nested, EndIsSeen, ParentOk, Added, Skipped;
    var t1 := PushSound(t, buf, i);
    n := NodeSound(t1, buf, i);
    NodeStart(n, t.cfg);
    var j := i + |Yield(n)|;
    AtInside(buf, i, Yield(n));
    var t2 := ParseNode(t1, buf, i, n);
    SameRun(t1, buf, i, t2, j);
    u := PopSound(t2, buf, j, Meaning(n));
    assert t2.below[..|t.below|] == t.below;
  }

  // ------------------------------------------------------------ separators

  /** Before the first child, and behind a child. */
  function Between(close: char, first: bool): State {
    if close == ']' then (if first then Array else ArraySep) else (if first then FieldStart else ObjSep)
  }

  /** Where a child may start. */
  function Expecting(close: char, first: bool): State {
    if close == ']' then (if first then Array else ArrayAfterSep) else (if first then FieldStart else FieldStartAfterSep)
  }

  lemma CommaCase(t: Tok, buf: string, i: nat)
    requires Wf(t) && (t.top.state == ArraySep || t.top.state == ObjSep) && i < |buf| && buf[i] == ','
    ensures Micro(t, buf, i) == Next(t.WsThen(if t.top.state == ArraySep then ArrayAfterSep else FieldStartAfterSep), 1)
  {
    hide TopOk, ParentsOk, StateRank, StepOk, Plain;
  }

  /** A strict tokener wants a child behind a comma. */
  lemma NoTrailingComma(t: Tok, buf: string, i: nat)
    requires Wf(t) && t.cfg.strict && i < |buf|
    ensures t.top.state == ArrayAfterSep && buf[i] == ']' ==> Micro(t, buf, i).Out?
    ensures t.top.state == FieldStartAfterSep && buf[i] == '}' ==> Micro(t, buf, i).Out?
  {
    hide TopOk, ParentsOk, StateRank, StepOk, Plain;
  }

  lemma CommaStep(t: Tok, buf: string, i: nat, close: char) returns (u: Tok)
    requires Wins(t, buf, i) && t.top.state == Between(close, false) && (close == ']' || close == '}')
    requires i < |buf| && buf[i] != close
    ensures buf[i] == ',' && Wins(u, buf, i + 1) && u == t.WsThen(Expecting(close, false))
  {
    hide Run, Conclude, Micro, Wf;
    WinStep(t, buf, i);
    SepSteps(t, buf, i);
    CommaCase(t, buf, i);
    u := t.WsThen(Expecting(close, false));
  }

  /** What is behind a comma, up to the next token. */
  lemma CommaSound(t: Tok, buf: string, i: nat, close: char) returns (before: Gap, u: Tok)
    requires Wins(t, buf, i) && t.top.state == Between(close, false) && (close == ']' || close == '}')
    requires i < |buf| && buf[i] != close
    ensures buf[i] == ',' && LegalGap(before, t.cfg.strict) && At(buf, i + 1, Filling(before))
    ensures var (k, s) := (i + 1 + |Filling(before)|, Expecting(close, false));
            && k < |buf| && !Skipped(buf[k], t.cfg.strict) && (buf[k] == close ==> !t.cfg.strict)
            && Wins(u, buf, k) && u == t.(top := t.top.(state := s, saved := s), pb := u.pb)
  {
    hide Run, Conclude, Micro, Wf, LegalGap, At, Filling, Skipped;
    var t1 := CommaStep(t, buf, i, close);
    before, u := InnerGap(t1, buf, i + 1);
    WinStep(u, buf, i + 1 + |Filling(before)|);
    if t.cfg.strict { NoTrailingComma(u, buf, i + 1 + |Filling(before)|); }
  }

  /** What comes next in a container: its end, its end behind a comma, or a child. */
  datatype NextPart = End(pad: Gap) | LooseEnd(gap: Gap, pad: Gap) | Child(gap: Gap, before: Gap)

  /** Where the next child of a container starts, if there is one. */
  lemma SepNext(t: Tok, buf: string, i: nat, first: bool, close: char) returns (next: NextPart, u: Tok)
    requires Wins(t, buf, i) && t.top.state == EatWs && t.top.saved == Between(close, first) && (close == ']' || close == '}')
    ensures next.End? ==> LegalGap(next.pad, t.cfg.strict) && At(buf, i, Filling(next.pad) + [close])
    ensures next.LooseEnd? ==>
              && !first && !t.cfg.strict && LegalGap(next.gap, false) && LegalGap(next.pad, false)
              && At(buf, i, Comma(next.gap, false) + Filling(next.pad) + [close])
    ensures next.Child? ==>
              && LegalGap(next.gap, t.cfg.strict) && LegalGap(next.before, t.cfg.strict)
              && At(buf, i, Comma(next.gap, first)) && At(buf, i + |Comma(next.gap, first)|, Filling(next.before))
    ensures next.Child? ==>
              var (k, s) := (i + |Comma(next.gap, first)| + |Filling(next.before)|, Expecting(close, first));
              && k < |buf| && !Skipped(buf[k], t.cfg.strict) && buf[k] != close
              && Wins(u, buf, k) && u == t.(top := t.top.(state := s, saved := s), pb := u.pb)
  {
    hide Run, Conclude, Wf, LegalGap, At, Comma, Filling, Skipped;
    var gap, v := InnerGap(t, buf, i);
    var j := i + |Filling(gap)|;
    OneAt(buf, j);
    u := v;
    if buf[j] == close {
      next := End(gap);
      JoinAt(buf, i, Filling(gap), [close]);
    } else if first {
      NoGap(t.cfg.strict);
      FirstHasNoComma(buf, i);
      next := Child([], gap);
    } else {
      next, u := BehindComma(v, buf, i, gap, close);
    }
  }

  lemma BehindComma(t: Tok, buf: string, i: nat, gap: Gap, close: char) returns (next: NextPart, u: Tok)
    requires var j := i + |Filling(gap)|;
             && j < |buf| && Wins(t, buf, j) && buf[j] != close && LegalGap(gap, t.cfg.strict) && At(buf, i, Filling(gap))
    requires t.top.state == Between(close, false) && (close == ']' || close == '}')
    ensures !next.End?
    ensures next.LooseEnd? ==>
              && !t.cfg.strict && LegalGap(next.gap, false) && LegalGap(next.pad, false)
              && At(buf, i, Comma(next.gap, false) + Filling(next.pad) + [close])
    ensures next.Child? ==>
              && LegalGap(next.gap, t.cfg.strict) && LegalGap(next.before, t.cfg.strict)
              && At(buf, i, Comma(next.gap, false)) && At(buf, i + |Comma(next.gap, false)|, Filling(next.before))
    ensures next.Child? ==>
              var (k, s) := (i + |Comma(next.gap, false)| + |Filling(next.before)|, Expecting(close, false));
              && k < |buf| && !Skipped(buf[k], t.cfg.strict) && buf[k] != close
              && Wins(u, buf, k) && u == t.(top := t.top.(state := s, saved := s), pb := u.pb)
  {
    hide Run, Conclude, Wf, LegalGap, At, Filling, Skipped;
    var j := i + |Filling(gap)|;
    var before;
    before, u := CommaSound(t, buf, j, close);
    OneAt(buf, j);
    JoinAt(buf, i, Filling(gap), [',']);
    var k := j + 1 + |Filling(before)|;
    if buf[k] == close {
      OneAt(buf, k);
      JoinAt(buf, i, Comma(gap, false), Filling(before));
      JoinAt(buf, i, Comma(gap, false) + Filling(before), [close]);
      next := LooseEnd(gap, before);
    } else {
      next := Child(gap, before);
    }
  }

  lemma FirstHasNoComma(buf: string, i: nat)
    requires i <= |buf|
    ensures Comma([], true) == "" && At(buf, i, "")
  {
  }

  // ------------------------------------------------------------ arrays

  lemma ItemAt(buf: string, i: nat, gap: Gap, first: bool, before: Gap, n: Node, rest: Items)
    requires At(buf, i, Comma(gap, first)) && At(buf, i + |Comma(gap, first)|, Filling(before))
    requires At(buf, i + |Comma(gap, first)| + |Filling(before)|, Yield(n))
    requires At(buf, i + |Comma(gap, first)| + |Filling(before)| + |Yield(n)|, ItemsYield(rest, false) + [']'])
    ensures At(buf, i, ItemsYield(Item(gap, before, n, rest), first) + [']'])
  {
    hide Yield, Comma, At, Filling;
    ItemsSplit(Item(gap, before, n, rest), first);
    var (a, b, c, d) := (Comma(gap, first), Filling(before), Yield(n), ItemsYield(rest, false) + [']']);
    JoinAt(buf, i + |a| + |b|, c, d);
    JoinAt(buf, i + |a|, b, c + d);
    JoinAt(buf, i, a, b + (c + d));
  }

  lemma OneItem(gap: Gap, before: Gap, n: Node, rest: Items, first: bool, cfg: Config, room: int)
    requires LegalGap(gap, cfg.strict) && LegalGap(before, cfg.strict) && Legal(n, cfg) && Nested(n, room)
    requires LegalItems(rest, false, cfg) && ItemsNested(rest, room)
    ensures LegalItems(Item(gap, before, n, rest), first, cfg) && ItemsNested(Item(gap, before, n, rest), room)
  {
    hide LegalGap, Legal, Nested;
  }

  lemma NoItems(pad: Gap, first: bool, cfg: Config, room: int)
    requires LegalGap(pad, cfg.strict)
    ensures LegalItems(Last(pad), first, cfg) && ItemsNested(Last(pad), room) && ItemsYield(Last(pad), first) == Filling(pad)
    ensures LegalEntries(Stop(pad), first, cfg) && EntriesNested(Stop(pad), room) && EntriesYield(Stop(pad), first) == Filling(pad)
  {
    hide LegalGap;
  }

  lemma LooseItems(gap: Gap, pad: Gap, cfg: Config, room: int)
    requires LegalGap(gap, false) && LegalGap(pad, false) && !cfg.strict
    ensures LegalItems(Trailing(gap, pad), false, cfg) && ItemsNested(Trailing(gap, pad), room)
    ensures ItemsYield(Trailing(gap, pad), false) == EntriesYield(Loose(gap, pad), false) == Comma(gap, false) + Filling(pad)
    ensures LegalEntries(Loose(gap, pad), false, cfg) && EntriesNested(Loose(gap, pad), room)
  {
    hide LegalGap;
  }

  lemma {:induction false} ItemsSound(t: Tok, buf: string, i: nat, first: bool, es: seq<JValue>) returns (items: Items)
    requires Wins(t, buf, i) && t.top == Level(EatWs, if first then Array else ArraySep, JArray(es), "")
    ensures LegalItems(items, first, t.cfg) && ItemsNested(items, t.cfg.maxDepth - 2 - |t.below|)
    ensures At(buf, i, ItemsYield(items, first) + [']'])
    decreases |buf| - i, 2
  {
    hide Run, Conclude, Wf, At, Yield, Legal, Nested, Meaning, LegalGap, Filling, Comma, Added, WaitingFor, ParentOk, ItemsYield, LegalItems,
         ItemsNested, Skipped;
    var room := t.cfg.maxDepth - 2 - |t.below|;
    var next, u := SepNext(t, buf, i, first, ']');
    match next
    case End(pad) =>
      items := Last(pad);
      NoItems(pad, first, t.cfg, room);
    case LooseEnd(gap, pad) =>
      items := Trailing(gap, pad);
      LooseItems(gap, pad, t.cfg, room);
    case Child(gap, before) =>
      var k := i + |Comma(gap, first)| + |Filling(before)|;
      var n, w := ChildSound(u, buf, k);
      ItemPut(u.top, es, Meaning(n));
      var rest := ItemsSound(w, buf, k + |Yield(n)|, false, es + [Meaning(n)]);
      ItemAt(buf, i, gap, first, before, n, rest);
      items := Item(gap, before, n, rest);
      OneItem(gap, before, n, rest, first, t.cfg, room);
  }

  // ------------------------------------------------------------ objects

  lemma KeyStart(t: Tok, buf: string, i: nat)
    requires Wf(t) && (t.top.state == FieldStart || t.top.state == FieldStartAfterSep) && i < |buf| && buf[i] != '}'
    ensures Micro(t, buf, i) == if LegalQuote(buf[i]) then Next(t.(quote := buf[i], pb := "").To(Field), 1) else Fail(t, BadKeyName)
  {
    hide TopOk, ParentsOk, StateRank, StepOk, Plain;
  }

  lemma ColonOnly(t: Tok, buf: string, i: nat)
    requires Wf(t) && t.top.state == FieldEnd && i < |buf| && !Micro(t, buf, i).Out?
    ensures buf[i] == ':'
  {
    hide TopOk, ParentsOk, StateRank, StepOk, Plain;
  }

  /** The parts of a key, its quotes, and what stands before the colon. */
  lemma KeySound(t: Tok, buf: string, i: nat) returns (quote: char, key: seq<Part>, mid: Gap)
    requires Wins(t, buf, i) && (t.top.state == FieldStart || t.top.state == FieldStartAfterSep) && i < |buf| && buf[i] != '}'
    ensures LegalQuote(quote) && LegalParts(key, quote) && LegalGap(mid, t.cfg.strict) && At(buf, i, KeyYield(quote, key, mid))
  {
    hide Run, Conclude, Micro, Wf, At, PartsText, LegalParts, LegalGap, Filling, Chars, CString;
    WinStep(t, buf, i);
    KeyStart(t, buf, i);
    quote := buf[i];
    var t1 := t.(quote := quote, pb := "").To(Field);
    key := PartsSound(t1, buf, i + 1);
    var t2 := ParseParts(t1, buf, i + 1, key);
    var j := i + 1 + |PartsText(key)|;
    AtSplit(buf, i + 1, PartsText(key), [quote]);
    AtChars(buf, j, [quote], 0);
    SameRun(t1, buf, i + 1, t2, j);
    mid := ColonSound(t2, buf, j);
    OneThen(buf, j, Filling(mid) + [':']);
    JoinAt(buf, i + 1, PartsText(key), [quote] + (Filling(mid) + [':']));
    OneThen(buf, i, PartsText(key) + ([quote] + (Filling(mid) + [':'])));
  }

  /** From the closing quote of a key to the colon. */
  lemma ColonSound(t: Tok, buf: string, i: nat) returns (mid: Gap)
    requires Wins(t, buf, i) && t.top.state == Field && i < |buf| && buf[i] == t.quote
    ensures LegalGap(mid, t.cfg.strict) && At(buf, i + 1, Filling(mid) + [':'])
  {
    hide Run, Conclude, Micro, Wf, CString, LegalGap, Filling, At, Skipped;
    var t1 := CloseKey(t, buf, i);
    SameRun(t, buf, i, t1, i + 1);
    var u;
    mid, u := InnerGap(t1, buf, i + 1);
    var j := i + 1 + |Filling(mid)|;
    WinStep(u, buf, j);
    ColonOnly(u, buf, j);
    OneAt(buf, j);
    JoinAt(buf, i + 1, Filling(mid), [':']);
  }

  lemma EntryAt(buf: string, i: nat, e: Entries, first: bool)
    requires e.Entry? && At(buf, i, Comma(e.gap, first)) && At(buf, i + |Comma(e.gap, first)|, Filling(e.before))
    requires var k := i + |Comma(e.gap, first)| + |Filling(e.before)|;
             var m := k + |KeyYield(e.quote, e.key, e.mid)|;
             && At(buf, k, KeyYield(e.quote, e.key, e.mid)) && At(buf, m, Filling(e.after)) && At(buf, m + |Filling(e.after)|, Yield(e.node))
             && At(buf, m + |Filling(e.after)| + |Yield(e.node)|, EntriesYield(e.rest, false) + ['}'])
    ensures At(buf, i, EntriesYield(e, first) + ['}'])
  {
    hide Yield, Comma, At, KeyYield, Filling;
    EntriesSplit(e, first);
    var (a, b, c) := (Comma(e.gap, first), Filling(e.before), KeyYield(e.quote, e.key, e.mid));
    var (d, f, g) := (Filling(e.after), Yield(e.node), EntriesYield(e.rest, false) + ['}']);
    JoinAt(buf, i + |a| + |b| + |c| + |d|, f, g);
    JoinAt(buf, i + |a| + |b| + |c|, d, f + g);
    JoinAt(buf, i + |a| + |b|, c, d + (f + g));
    JoinAt(buf, i + |a|, b, c + (d + (f + g)));
    JoinAt(buf, i, a, b + (c + (d + (f + g))));
  }

  lemma BeforeKey(t: Tok)
    requires Wf(t) && (t.top.state == FieldStart || t.top.state == FieldStartAfterSep) && t.top.saved == t.top.state
    ensures Wf(t.To(EatWs)) && t.To(EatWs).To(t.top.saved) == t
  {
    hide ParentsOk;
  }

  /** Everything before the value of a member. */
  lemma NameSound(t: Tok, buf: string, i: nat, ms: seq<Member>) returns (quote: char, key: seq<Part>, mid: Gap, after: Gap, u: Tok)
    requires Wins(t, buf, i) && (t.top.state == FieldStart || t.top.state == FieldStartAfterSep) && t.top.saved == t.top.state
    requires t.top.current == JObject(ms) && i < |buf| && buf[i] != '}' && !Skipped(buf[i], t.cfg.strict)
    ensures LegalQuote(quote) && LegalParts(key, quote) && LegalGap(mid, t.cfg.strict) && LegalGap(after, t.cfg.strict)
    ensures At(buf, i, KeyYield(quote, key, mid)) && At(buf, i + |KeyYield(quote, key, mid)|, Filling(after))
    ensures var k := i + |KeyYield(quote, key, mid)| + |Filling(after)|;
            k < |buf| && !Skipped(buf[k], t.cfg.strict) && Wins(u, buf, k)
    ensures u.top == Level(ObjValue, ObjValue, JObject(ms), KeyOf(key)) && u.cfg == t.cfg && u.below == t.below
  {
    hide Run, Conclude, Wf, At, LegalParts, LegalGap, Filling, KeyYield, KeyOf, Skipped;
    quote, key, mid := KeySound(t, buf, i);
    var t1 := t.To(EatWs);
    BeforeKey(t);
    AtToken(t1, buf, i);
    var t2 := ParseName(t1, buf, i, quote, key, mid);
    var j := i + |KeyYield(quote, key, mid)|;
    AtInside(buf, i, KeyYield(quote, key, mid));
    SameRun(t, buf, i, t2, j);
    after, u := InnerGap(t2, buf, j);
  }

  /** One member: all but what stands before it. */
  lemma EntrySound(t: Tok, buf: string, i: nat, ms: seq<Member>) returns (e: Entries, u: Tok)
    requires Wins(t, buf, i) && (t.top.state == FieldStart || t.top.state == FieldStartAfterSep) && t.top.saved == t.top.state
    requires t.top.current == JObject(ms) && i < |buf| && buf[i] != '}' && !Skipped(buf[i], t.cfg.strict)
    ensures e.Entry? && LegalQuote(e.quote) && LegalParts(e.key, e.quote) && LegalGap(e.mid, t.cfg.strict) && LegalGap(e.after, t.cfg.strict)
    ensures Legal(e.node, t.cfg) && Nested(e.node, t.cfg.maxDepth - 2 - |t.below|)
    ensures var m := i + |KeyYield(e.quote, e.key, e.mid)|;
            && At(buf, i, KeyYield(e.quote, e.key, e.mid)) && At(buf, m, Filling(e.after))
            && At(buf, m + |Filling(e.after)|, Yield(e.node)) && Yield(e.node) != ""
            && m + |Filling(e.after)| + |Yield(e.node)| <= |buf| && Wins(u, buf, m + |Filling(e.after)| + |Yield(e.node)|)
    ensures u.top == Level(EatWs, ObjSep, JObject(AddMember(ms, KeyOf(e.key), Meaning(e.node))), "") && u.cfg == t.cfg && u.below == t.below
    decreases |buf| - i, 2
  {
    hide Run, Conclude, Wf, At, Yield, Legal, Nested, Meaning, LegalGap, Filling, Added, WaitingFor, ParentOk, KeyYield, KeyOf, LegalParts,
         AddMember, LegalQuote, Skipped;
    var quote, key, mid, after, w := NameSound(t, buf, i, ms);
    var m := i + |KeyYield(quote, key, mid)| + |Filling(after)|;
    var n;
    n, u := ChildSound(w, buf, m);
    MemberPut(w.top, ms, KeyOf(key), Meaning(n));
    e := Entry([], [], quote, key, mid, after, n, Stop([]));
  }

  lemma {:induction false} EntriesSound(t: Tok, buf: string, i: nat, first: bool, ms: seq<Member>) returns (e: Entries)
    requires Wins(t, buf, i) && t.top == Level(EatWs, if first then FieldStart else ObjSep, JObject(ms), "")
    ensures LegalEntries(e, first, t.cfg) && EntriesNested(e, t.cfg.maxDepth - 2 - |t.below|)
    ensures At(buf, i, EntriesYield(e, first) + ['}'])
    decreases |buf| - i, 3
  {
    hide Run, Conclude, Wf, At, Yield, Legal, Nested, Meaning, LegalGap, Filling, Comma, KeyYield, KeyOf, LegalParts, AddMember, EntriesYield,
         LegalEntries, EntriesNested, LegalQuote, Skipped;
    var room := t.cfg.maxDepth - 2 - |t.below|;
    var next, u := SepNext(t, buf, i, first, '}');
    match next
    case End(pad) =>
      e := Stop(pad);
      NoItems(pad, first, t.cfg, room);
    case LooseEnd(gap, pad) =>
      e := Loose(gap, pad);
      LooseItems(gap, pad, t.cfg, room);
    case Child(gap, before) =>
      var k := i + |Comma(gap, first)| + |Filling(before)|;
      var one, x := EntrySound(u, buf, k, ms);
      var m := k + |KeyYield(one.quote, one.key, one.mid)| + |Filling(one.after)| + |Yield(one.node)|;
      var rest := EntriesSound(x, buf, m, false, AddMember(ms, KeyOf(one.key), Meaning(one.node)));
      e := one.(gap := gap, before := before, rest := rest);
      EntryAt(buf, i, e, first);
      EntryLegal(e, first, t.cfg, room);
  }

  lemma EntryLegal(e: Entries, first: bool, cfg: Config, room: int)
    requires e.Entry? && LegalGap(e.gap, cfg.strict) && LegalGap(e.before, cfg.strict) && LegalGap(e.mid, cfg.strict)
    requires LegalGap(e.after, cfg.strict) && LegalQuote(e.quote) && LegalParts(e.key, e.quote)
    requires Legal(e.node, cfg) && Nested(e.node, room) && LegalEntries(e.rest, false, cfg) && EntriesNested(e.rest, room)
    ensures LegalEntries(e, first, cfg) && EntriesNested(e, room)
  {
    hide LegalGap, Legal, Nested, LegalParts;
  }

  // ------------------------------------------------------------ where a document ends

  /** A run that succeeds inside a comment has consumed the NUL that it found there. */
  lemma {:induction false} CommentEnds(t: Tok, buf: string, i: nat)
    requires Wf(t) && i <= |buf|
    ensures var h := Run(t, buf, i);
            Conclude(h).err == Success && IsCommentState(h.t.top.state) ==> h.off > i && buf[h.off - 1] == '\0'
    decreases |buf| - i, Rank(t)
  {
    hide Micro, Plain, TopOk, ParentsOk, StateRank, Rank;
    if i < |buf| {
      RunStep(t, buf, i);
      match Micro(t, buf, i)
      case Redo(u) => CommentEnds(u, buf, i);
      case Out(_, _, _) => OutsideAtOut(t, buf, i);
      case Next(u, n) => if buf[i] == '\0' { OneStep(t, buf, i); } else { CommentEnds(u, buf, i + n); }
    }
  }

  lemma OutsideAtOut(t: Tok, buf: string, i: nat)
    requires Wf(t) && i < |buf| && Micro(t, buf, i).Out?
    ensures Micro(t, buf, i).err == Success ==> !IsCommentState(Micro(t, buf, i).t.top.state)
    ensures Micro(t, buf, i).err != Success ==> Conclude(Run(t, buf, i)).err != Success
  {
    hide Micro, Wf, Run;
    RunOut(t, buf, i);
    if t.top.state != Finish { OutIsError(t, buf, i); } else { FinishSteps(t, buf, i); }
  }

  lemma OneStep(t: Tok, buf: string, i: nat)
    requires Wf(t) && i < |buf| && Micro(t, buf, i).Next?
    ensures IsCommentState(Micro(t, buf, i).t.top.state) ==> Micro(t, buf, i).n == 1
  {
    hide Micro, ParentsOk, StateRank, StepOk, TopOk;
    if InText(t.top.state) { Quirks.InnerStep(t, buf, i); }
  }

  lemma LastOfWord(w: string, strict: bool)
    requires LegalWord(w, strict)
    ensures w != "" && w[|w| - 1] != '\0'
  {
    LegalSpells(w, strict);
    SamePrefix(w, Spelled(w), |w|, !strict);
    SmallSame(w, Spelled(w), |w| - 1, !strict);
  }

  lemma LastOfNode(n: Node, cfg: Config)
    requires Legal(n, cfg)
    ensures Yield(n) != "" && Yield(n)[|Yield(n)| - 1] != '\0'
  {
    hide PartsText, ItemsYield, EntriesYield, LegalWord, LegalItems, LegalEntries, LegalParts;
    match n
    case Word(w) => LastOfWord(w, cfg.strict);
    case Numeral(s) => FitsIsNumber(s, |s| - 1);
    case _ =>
  }

  lemma {:induction false} LastOfGap(gap: Gap, strict: bool)
    requires LegalGap(gap, strict)
    ensures Filling(gap) != "" ==> Filling(gap)[|Filling(gap)| - 1] != '\0'
    decreases |gap|
  {
    if gap != [] {
      RestLegal(gap, strict);
      LastOfGap(gap[1..], strict);
    }
  }

  /** No document ends with a NUL. */
  lemma LastOfDocument(d: Document, cfg: Config)
    requires LegalDocument(d, cfg)
    ensures DocumentText(d) != "" && DocumentText(d)[|DocumentText(d)| - 1] != '\0'
  {
    hide Yield, Filling, Legal, LegalGap, Nested;
    LastOfNode(d.node, cfg);
    LastOfGap(d.trail, cfg.strict);
  }

  // ------------------------------------------------------------ documents

  /** The document d is what stands in the text before position n, and what stands there ends it. */
  predicate Stands(text: string, n: nat, d: Document, strict: bool) {
    n <= |text| && text[..n] == DocumentText(d) && Ends(d, text[n..] + ['\0'], strict)
  }

  /** Behind the outermost value: what is skipped, and what ends the document. */
  lemma TrailSound(t: Tok, buf: string, i: nat) returns (gap: Gap)
    requires Wins(t, buf, i) && t.top.state == EatWs && t.top.saved == Finish && t.below == []
    ensures LegalGap(gap, t.cfg.strict) && At(buf, i, Filling(gap))
    ensures var j := i + |Filling(gap)|;
            && j <= |buf|
            && (j < |buf| ==> buf[j] == '\0' || (!t.cfg.strict && !IsWs(buf[j]) && buf[j] != '/'))
  {
    hide Run, Conclude, Wf, At, Filling, LegalGap;
    var u;
    gap, u := GapSound(t, buf, i);
    var j := i + |Filling(gap)|;
    if j < |buf| && t.cfg.strict { OuterEnd(u.To(Finish), buf, j); }
  }

  lemma EndsMeans(text: string, n: nat, d: Document, strict: bool)
    requires n <= |text| && text[..n] == DocumentText(d)
    requires var c := (text + ['\0'])[n]; c == '\0' || (!strict && !IsWs(c) && c != '/')
    requires d.trail == [] ==> EndIsSeen(d.node, text + ['\0'], n)
    ensures Stands(text, n, d, strict)
  {
    assert (text[n..] + ['\0'])[0] == (text + ['\0'])[n];
  }

  lemma PartsStand(text: string, d: Document)
    requires var buf := text + ['\0'];
             var (k, j) := (|Filling(d.lead)|, |Filling(d.lead)| + |Yield(d.node)|);
             && At(buf, 0, Filling(d.lead)) && At(buf, k, Yield(d.node)) && At(buf, j, Filling(d.trail))
             && j + |Filling(d.trail)| < |buf|
    ensures |DocumentText(d)| <= |text| && text[..|DocumentText(d)|] == DocumentText(d)
  {
    hide Yield, Filling;
    var buf := text + ['\0'];
    JoinAt(buf, 0, Filling(d.lead), Yield(d.node));
    JoinAt(buf, 0, Filling(d.lead) + Yield(d.node), Filling(d.trail));
    assert text[..|DocumentText(d)|] == buf[..|DocumentText(d)|];
  }

  /** The last part of a document does not reach beyond the NUL behind the text. */
  lemma NotToTheEnd(text: string, j: nat, n: Node, trail: Gap, cfg: Config)
    requires var buf := text + ['\0'];
             |Yield(n)| <= j <= |buf| && At(buf, j - |Yield(n)|, Yield(n)) && At(buf, j, Filling(trail))
    requires Legal(n, cfg) && LegalGap(trail, cfg.strict)
    ensures j + |Filling(trail)| < |text + ['\0']|
  {
    hide Yield, Filling, Legal, LegalGap;
    var (buf, y, f) := (text + ['\0'], Yield(n), Filling(trail));
    LastOfNode(n, cfg);
    LastOfGap(trail, cfg.strict);
    AtChars(buf, j - |y|, y, |y| - 1);
    if |f| > 0 { AtChars(buf, j, f, |f| - 1); }
  }

  /** What a tokener accepts is a document of the grammar. */
  lemma AcceptedStands(t: Tok, text: string) returns (d: Document)
    requires Ready(t) && Wins(StartCall(t), text + ['\0'], 0)
    ensures LegalDocument(d, t.cfg) && Stands(text, |DocumentText(d)|, d, t.cfg.strict)
  {
    hide Run, Wf, Yield, Legal, Nested, LegalGap, Filling, At, EndIsSeen, DocumentText, Meaning, Stands, Skipped;
    var buf := text + ['\0'];
    var s := ReadyStart(t);
    var lead, s1 := GapSound(s, buf, 0);
    var k := |Filling(lead)|;
    var node := NodeSound(s1, buf, k);
    var u := ParseNode(s1, buf, k, node);
    var j := k + |Yield(node)|;
    AtInside(buf, k, Yield(node));
    SameRun(s1, buf, k, u, j);
    var trail := TrailSound(u, buf, j);
    NotToTheEnd(text, j, node, trail, t.cfg);
    d := Document(lead, node, trail);
    PartsStand(text, d);
    LengthIs(d);
    NoFilling("", "");
    EndsMeans(text, |DocumentText(d)|, d, t.cfg.strict);
  }

  lemma LengthIs(d: Document)
    ensures |DocumentText(d)| == |Filling(d.lead)| + |Yield(d.node)| + |Filling(d.trail)|
  {
  }

  /** A document that stands in a text is parsed to what it means. */
  lemma StandingParses(t: Tok, text: string, d: Document, n: nat)
    requires Ready(t) && LegalDocument(d, t.cfg) && Stands(text, n, d, t.cfg.strict)
    ensures var r := ParseZ(t, text); r.err == Success && r.value == Meaning(d.node) && r.off == n
    ensures 0 < n <= |text| && (text + ['\0'])[n - 1] != '\0'
  {
    hide ParseEx, LegalDocument, DocumentText, Meaning, Wf, Ends;
    LegalParses(t, d, text[n..] + ['\0']);
    LastOfDocument(d, t.cfg);
    assert text + ['\0'] == text[..n] + (text[n..] + ['\0']);
    assert text[..n][n - 1] == text[n - 1];
  }

  /** The exact language of json_tokener_parse_ex, and what it makes of it: a call succeeds with
      the value v after n characters, the last of which is not a NUL, if and only if these
      characters are a document of the grammar within the depth that means v.  (A success that
      has consumed a NUL is one inside a comment.) */
  lemma Accepts(t: Tok, text: string, v: JValue, n: nat)
    requires Ready(t)
    ensures (var r := ParseZ(t, text);
             r.err == Success && r.value == v && r.off == n && 0 < n <= |text| && text[n - 1] != '\0') <==>
            exists d :: LegalDocument(d, t.cfg) && Stands(text, n, d, t.cfg.strict) && Meaning(d.node) == v
  {
    hide ParseZ, LegalDocument, Stands, Meaning, Wf, DocumentText;
    forall d, k: nat | LegalDocument(d, t.cfg) && Stands(text, k, d, t.cfg.strict)
      ensures var r := ParseZ(t, text); r.err == Success && r.value == Meaning(d.node) && r.off == k
      ensures 0 < k <= |text| && text[k - 1] != '\0'
    {
      StandingParses(t, text, d, k);
    }
    var r := ParseZ(t, text);
    if r.err == Success && 0 < r.off <= |text| && text[r.off - 1] != '\0' {
      NotInComment(t, text);
      var d := AcceptedStands(t, text);
      assert LegalDocument(d, t.cfg) && Stands(text, |DocumentText(d)|, d, t.cfg.strict);
    }
  }

  lemma NotInComment(t: Tok, text: string)
    requires Ready(t) && ParseZ(t, text).err == Success
    requires t.cfg.strict || (0 < ParseZ(t, text).off <= |text| && text[ParseZ(t, text).off - 1] != '\0')
    ensures Wins(StartCall(t), text + ['\0'], 0)
  {
    hide Micro, Run, TopOk, ParentsOk;
    var buf := text + ['\0'];
    CommentEnds(StartCall(t), buf, 0);
    if t.cfg.strict { Quirks.StrictRun(StartCall(t), buf, 0); }
  }

  /** A strict tokener never stops in a comment: every success of it is a document that ends
      at a NUL. */
  lemma StrictAccepts(t: Tok, text: string, v: JValue, n: nat)
    requires Ready(t) && t.cfg.strict
    ensures (var r := ParseZ(t, text); r.err == Success && r.value == v && r.off == n) <==>
            exists d :: LegalDocument(d, t.cfg) && Stands(text, n, d, true) && Meaning(d.node) == v
  {
    hide ParseZ, LegalDocument, Stands, Meaning, Wf;
    Accepts(t, text, v, n);
    if ParseZ(t, text).err == Success {
      NotInComment(t, text);
      var d := AcceptedStands(t, text);
      StandingParses(t, text, d, |DocumentText(d)|);
    }
  }
}
