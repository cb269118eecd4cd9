/** What tokeners accept beyond JSON by RFC 7159: texts that a strict one takes, and texts
    that only the others take. */
module GrammarExamples {
  import opened Decimals
  import opened JsonValue
  import opened Sequences
  import opened Tokener
  import opened Grammar
  import opened RoundTrip
  import opened GrammarParse
  import opened GrammarScan
  import opened GrammarSound

  predicate Parsed(t: Tok, text: string, v: JValue)
    requires Wf(t)
  {
    var r := ParseZ(t, text); r.err == Success && r.value == v && r.off == |text|
  }

  lemma ParsedAs(t: Tok, d: Document, text: string, v: JValue)
    requires Ready(t) && LegalDocument(d, t.cfg) && DocumentText(d) == text && Meaning(d.node) == v
    ensures Parsed(t, text, v)
  {
    hide ParseZ, DocumentText, Meaning, LegalDocument;
    LegalParsesZ(t, d);
  }

  /** Just a value. */
  function Only(n: Node): Document { Document([], n, []) }

  lemma OnlyText(n: Node)
    ensures DocumentText(Only(n)) == Yield(n)
  {
    hide Yield;
  }

  /** Digits behind an optional sign, and perhaps a plus sign and more digits. */
  predicate IntegerText(sign: string, d: string, rest: string) {
    (sign == "" || sign == "-") && d != "" && AllDigits(d) && (rest == "" || (rest[0] == '+' && AllDigits(rest[1..])))
  }

  lemma IntegerChars(sign: string, d: string, rest: string, i: nat)
    requires IntegerText(sign, d, rest) && i < |sign + d + rest|
    ensures var s := sign + d + rest; IsDigit(s[i]) || (i == 0 && s[i] == '-') || (i > 0 && s[i] == '+')
  {
    var s := sign + d + rest;
    if i < |sign| {
    } else if i < |sign| + |d| {
      assert s[i] == d[i - |sign|];
    } else {
      assert s[i] == rest[i - |sign| - |d|];
      if i > |sign| + |d| { assert s[i] == rest[1..][i - |sign| - |d| - 1]; }
    }
  }

  lemma IntegerIs(sign: string, d: string, rest: string, cfg: Config)
    requires IntegerText(sign, d, rest) && (cfg.strict && sign == "" && d[0] == '0' ==> DecVal(d) == 0)
    ensures var s := sign + d + rest;
            LegalNumeral(s, cfg) && NumeralValue(s) == JInt(Clamp(Signed(sign == "-", d)))
  {
    hide DecVal, Tokener.ParseInt64;
    var s := sign + d + rest;
    IntegerMeans(sign, d, rest);
    forall i: nat | i < |s| ensures IsDigit(s[i]) || (i == 0 && s[i] == '-') || (i > 0 && s[i] == '+') {
      IntegerChars(sign, d, rest, i);
    }
    assert NumeralShape(s) && !Fractional(s);
    hide NumeralShape, Fractional, AllDigits;
  }

  lemma SmallNumbers()
    ensures AllDigits("1") && DecVal("1") == 1 && AllDigits("01") && DecVal("01") == 1 && AllDigits("00") && DecVal("00") == 0
  {
    assert "1"[..0] == "" && "01"[..1] == "0" && "00"[..1] == "0" && "0"[..0] == "";
    assert DecVal("") == 0 && DecVal("0") == 0;
  }

  lemma One(cfg: Config)
    ensures LegalNumeral("1", cfg) && NumeralValue("1") == JInt(1)
  {
    hide LegalNumeral, NumeralValue, Tokener.ParseInt64, DecVal;
    SmallNumbers();
    assert "1" == "" + "1" + "";
    IntegerIs("", "1", "", cfg);
  }

  // ------------------------------------------------------------ what also a strict tokener takes

  lemma OneSpace(c: char)
    ensures Filling([Ws(c)]) == [c]
  {
    assert [Ws(c)][1..] == [];
  }

  /** The vertical tab and the form feed as white space, ... */
  lemma OtherWhiteSpace(t: Tok, c: char)
    requires Ready(t) && t.cfg.maxDepth > 0 && (c == 11 as char || c == 12 as char)
    ensures Parsed(t, [c] + "1", JInt(1))
  {
    hide Parsed, LegalNumeral, NumeralValue, Filling;
    One(t.cfg);
    OneSpace(c);
    NoFilling("", "");
    ParsedAs(t, Document([Ws(c)], Numeral("1"), []), [c] + "1", JInt(1));
  }

  lemma PlainPart(c: char)
    ensures PartsText([Raw(c)]) == [c] && Chars([Raw(c)], 0) == [c]
  {
    assert [Raw(c)][1..] == [];
    assert "" + [c] + "" == [c];
  }

  /** ... control characters inside quotes, ... */
  lemma OtherStrings(t: Tok)
    requires Ready(t) && t.cfg.maxDepth > 0
    ensures Parsed(t, "\"\n\"", JString("\n"))
  {
    hide Parsed, PartsText, Chars;
    PlainPart('\n');
    var n := Quote('"', [Raw('\n')]);
    OnlyText(n);
    ParsedAs(t, Only(n), "\"\n\"", JString("\n"));
  }

  /** ... keys in single quotes, ... */
  lemma OtherKeys(t: Tok)
    requires Ready(t) && t.cfg.maxDepth > 1
    ensures Parsed(t, "{'a':null}", JObject([JsonValue.Member("a", JNull)]))
  {
    hide Parsed, PartsText, Chars, EntriesYield, Collect, LegalEntries, LegalGap, Wf, Nested;
    NoGap(t.cfg.strict);
    var e := Entry([], [], '\'', [Raw('a')], [], [], Word("null"), Stop([]));
    OneEntry(e, t.cfg, t.cfg.maxDepth - 1);
    OnlyText(Dict(e));
    ParsedAs(t, Only(Dict(e)), "{'a':null}", JObject([JsonValue.Member("a", JNull)]));
  }

  lemma NullIs(cfg: Config)
    ensures Legal(Word("null"), cfg) && Meaning(Word("null")) == JNull && Yield(Word("null")) == "null"
  {
    FoldWords();
    hide Fold;
  }

  lemma OneEntry(e: Entries, cfg: Config, room: int)
    requires e == Entry([], [], '\'', [Raw('a')], [], [], Word("null"), Stop([])) && room > 0
    ensures LegalEntries(e, true, cfg) && Nested(Dict(e), room)
    ensures EntriesYield(e, true) == "'a':null" && Collect(e, []) == [JsonValue.Member("a", JNull)]
  {
    hide PartsText, Chars, Filling, Meaning;
    PlainPart('a');
    NullIs(cfg);
    NoFilling("", "");
    assert Nested(e.node, room - 1);
    assert EntriesNested(e, room - 1);
    assert KeyOf([Raw('a')]) == "a";
    assert KeyYield('\'', [Raw('a')], []) == "'a':";
  }

  /** ... numbers with a plus sign inside, or with zeros before other digits, ... */
  lemma OtherNumbers(t: Tok)
    requires Ready(t) && t.cfg.maxDepth > 0
    ensures Parsed(t, "00", JInt(0)) && Parsed(t, "-01", JInt(-1)) && Parsed(t, "1+1", JInt(1))
  {
    hide Parsed, Tokener.ParseInt64, DecVal, LegalNumeral, NumeralValue, Wf;
    SmallNumbers();
    assert "00" == "" + "00" + "" && "-01" == "-" + "01" + "" && "1+1" == "" + "1" + "+1" && "+1"[1..] == "1";
    NumberParsed(t, "", "00", "");
    NumberParsed(t, "-", "01", "");
    NumberParsed(t, "", "1", "+1");
  }

  lemma NumberParsed(t: Tok, sign: string, d: string, rest: string)
    requires Ready(t) && t.cfg.maxDepth > 0
    requires IntegerText(sign, d, rest) && (t.cfg.strict && sign == "" && d[0] == '0' ==> DecVal(d) == 0)
    ensures Parsed(t, sign + d + rest, JInt(Clamp(Signed(sign == "-", d))))
  {
    hide Parsed, Tokener.ParseInt64, DecVal, LegalNumeral, NumeralValue;
    IntegerIs(sign, d, rest, t.cfg);
    OnlyText(Numeral(sign + d + rest));
    ParsedAs(t, Only(Numeral(sign + d + rest)), sign + d + rest, JInt(Clamp(Signed(sign == "-", d))));
  }

  /** ... and NaN and the infinities. */
  lemma OtherWords(t: Tok)
    requires Ready(t) && t.cfg.maxDepth > 0
    ensures Parsed(t, "NaN", JDouble("NaN")) && Parsed(t, "Infinity", JDouble("Infinity")) && Parsed(t, "-Infinity", JDouble("-Infinity"))
  {
    hide Parsed, Wf;
    FoldWords();
    hide Fold;
    OnlyText(Word("NaN"));
    OnlyText(Word("Infinity"));
    OnlyText(Word("-Infinity"));
    ParsedAs(t, Only(Word("NaN")), "NaN", JDouble("NaN"));
    ParsedAs(t, Only(Word("Infinity")), "Infinity", JDouble("Infinity"));
    ParsedAs(t, Only(Word("-Infinity")), "-Infinity", JDouble("-Infinity"));
  }

  // ------------------------------------------------------------ what only the others take

  /** Capital letters, other quotes and leading zeros, ... */
  lemma LooseTokens(t: Tok)
    requires Ready(t) && t.cfg.maxDepth > 0 && !t.cfg.strict
    ensures Parsed(t, "TRUE", JBool(true)) && Parsed(t, "'a'", JString("a")) && Parsed(t, "01", JInt(1))
  {
    hide Parsed, Wf, PartsText, Chars, Tokener.ParseInt64, DecVal;
    assert Fold("TRUE") == "true";
    OnlyText(Word("TRUE"));
    ParsedAs(t, Only(Word("TRUE")), "TRUE", JBool(true));
    PlainPart('a');
    OnlyText(Quote('\'', [Raw('a')]));
    ParsedAs(t, Only(Quote('\'', [Raw('a')])), "'a'", JString("a"));
    SmallNumbers();
    assert "01" == "" + "01" + "";
    NumberParsed(t, "", "01", "");
  }

  /** ... a comma behind the last element, ... */
  lemma LooseComma(t: Tok)
    requires Ready(t) && t.cfg.maxDepth > 1 && !t.cfg.strict
    ensures Parsed(t, "[1,]", JArray([JInt(1)]))
  {
    hide Parsed, LegalItems, ItemsNested, Values, ItemsYield, LegalGap, Wf;
    var items := Item([], [], Numeral("1"), Trailing([], []));
    OneItem(items, t.cfg, t.cfg.maxDepth - 2);
    NoGap(t.cfg.strict);
    OnlyText(List(items));
    ParsedAs(t, Only(List(items)), "[1,]", JArray([JInt(1)]));
  }

  lemma OneItem(items: Items, cfg: Config, room: int)
    requires items == Item([], [], Numeral("1"), Trailing([], [])) && !cfg.strict && room >= 0
    ensures LegalItems(items, true, cfg) && ItemsNested(items, room) && ItemsYield(items, true) == "1," && Values(items) == [JInt(1)]
  {
    hide LegalNumeral, NumeralValue, Filling;
    One(cfg);
    NoFilling("", "");
    assert Legal(items.node, cfg) && Nested(items.node, room) && Yield(items.node) == "1";
    assert Values(items) == [Meaning(items.node)] + Values(items.rest);
  }

  /** ... comments, ... */
  lemma Comments(t: Tok)
    requires Ready(t) && t.cfg.maxDepth > 0 && !t.cfg.strict
    ensures Parsed(t, "/**/1//\n", JInt(1))
  {
    hide Parsed, LegalNumeral, NumeralValue, Filling, Wf;
    One(t.cfg);
    OneComment(Block(""));
    OneComment(ToEol(""));
    assert FillerText(Block("")) == "/**/" && FillerText(ToEol("")) == "//\n";
    ParsedAs(t, Document([Block("")], Numeral("1"), [ToEol("")]), "/**/1//\n", JInt(1));
  }

  lemma OneComment(f: Filler)
    ensures Filling([f]) == FillerText(f)
  {
    assert [f][1..] == [];
  }

  /** ... and anything behind the value. */
  lemma LooseEnd(t: Tok, rest: string)
    requires Ready(t) && t.cfg.maxDepth > 0 && !t.cfg.strict
    ensures var r := ParseZ(t, "null!" + rest); r.err == Success && r.value == JNull && r.off == 4
  {
    hide ParseEx;
    NullIs(t.cfg);
    OnlyText(Word("null"));
    NoFilling("", "");
    LegalParses(t, Only(Word("null")), "!" + rest + ['\0']);
    assert "null" + ("!" + rest + ['\0']) == "null!" + rest + ['\0'];
  }
}
