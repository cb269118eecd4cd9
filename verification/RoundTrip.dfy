/** What is printed is read back: the tokener run on the text of a value ends with
    success and the same value, keys in the same order. */
module RoundTrip {
  import opened Decimals
  import opened Grammar
  import opened JsonValue
  import opened JsonText
  import opened Sequences
  import opened Tokener

  // ------------------------------------------------------------ white space

  lemma {:induction false} SkipWs(t: Tok, buf: string, i: nat, ws: string)
    requires Wf(t) && t.top.state == EatWs
    requires At(buf, i, ws) && AllWs(ws)
    ensures Run(t, buf, i) == Run(t, buf, i + |ws|)
    decreases |ws|
  {
    hide Run, StepOk, Plain, TopOk, ParentsOk, StateRank;
    if ws != "" {
      assert buf[i + 0] == ws[0];
      RunNext(t, buf, i, t, 1);
      forall j | 0 <= j < |ws[1..]| ensures buf[i + 1 + j] == ws[1..][j] {
        assert buf[i + (j + 1)] == ws[j + 1];
      }
      SkipWs(t, buf, i + 1, ws[1..]);
    }
  }

  // ------------------------------------------------------------ string contents

  /** Same tokener up to scratch fields, inside a string or a key. */
  ghost predicate SameText(t: Tok, u: Tok) {
    && u.cfg == t.cfg && u.below == t.below && u.quote == t.quote
    && u.top.state == t.top.state && u.top.current == t.top.current && u.top.field == t.top.field
  }

  lemma HexDigitVal(n: nat)
    requires n < 16
    ensures IsHex(HexDigit(n)) && HexVal(HexDigit(n)) == n
  {
  }

  lemma ShortEscapeMeans(c: char, f: Flags, t: Tok)
    requires Wf(t) && t.top.state == StrEscape && ShortEscape(c, f) != ""
    ensures Unescaped(ShortEscape(c, f)[1]) == [c]
    ensures StepEscape(t, ShortEscape(c, f)[1]) == Next(t.To(t.top.saved).Append([c]), 1)
  {
    hide StepOk, Plain, TopOk, ParentsOk, StateRank;
  }

  /** One escaped character adds the character. */
  lemma ParseChar(t: Tok, buf: string, i: nat, c: char, f: Flags) returns (u: Tok)
    requires Wf(t) && (t.top.state == Str || t.top.state == Field) && t.quote == '"'
    requires At(buf, i, EscapeChar(c, f))
    ensures Wf(u) && SameText(t, u) && u.pb == t.pb + [c]
    ensures Run(t, buf, i) == Run(u, buf, i + |EscapeChar(c, f)|)
  {
    hide Run, Micro, StepOk, Plain, TopOk, ParentsOk, StateRank, StepEscape, CString, HexDigit;
    var e := EscapeChar(c, f);
    TextCases(t, buf, i);
    assert buf[i + 0] == e[0];
    if ShortEscape(c, f) == "" && c >= ' ' {
      u := t.Append([c]);
      RunNext(t, buf, i, u, 1);
    } else {
      var s := t.top.state;
      var t1 := t.(top := t.top.(state := StrEscape, saved := s));
      RunNext(t, buf, i, t1, 1);
      if ShortEscape(c, f) != "" {
        assert buf[i + 1] == e[1];
        u := t1.To(s).Append([c]);
        ShortEscapeMeans(c, f, t1);
        TextCases(t1, buf, i + 1);
        RunNext(t1, buf, i + 1, u, 1);
      } else {
        assert e == "\\" + ("u00" + [HexDigit(c as nat / 16), HexDigit(c as nat % 16)]);
        AtSplit(buf, i, "\\", "u00" + [HexDigit(c as nat / 16), HexDigit(c as nat % 16)]);
        u := ParseControl(t1, buf, i + 1, c);
      }
    }
  }

  /** One hex digit that is not the fourth. */
  lemma RunHex(t: Tok, buf: string, i: nat, v: nat, ucs: nat) returns (u: Tok)
    requires Wf(t) && t.top.state == EscapeUnicode && t.stPos < 3
    requires i < |buf| && v < 16 && buf[i] == HexDigit(v)
    requires ucs == t.ucs + v * Shift(t.stPos)
    ensures Wf(u) && u == t.(stPos := t.stPos + 1, ucs := ucs)
    ensures Run(t, buf, i) == Run(u, buf, i + 1)
  {
    hide Run, Micro, StepOk, Plain, TopOk, ParentsOk, StateRank, HexVal;
    HexDigitVal(v);
    EarlyDigit(t, buf, i);
    u := t.(stPos := t.stPos + 1, ucs := ucs);
    RunNext(t, buf, i, u, 1);
  }

  lemma ControlChars(buf: string, i: nat, x: char, y: char)
    requires At(buf, i, "u00" + [x, y])
    ensures i + 5 <= |buf| && buf[i] == 'u' && buf[i + 1] == '0' && buf[i + 2] == '0' && buf[i + 3] == x && buf[i + 4] == y
    ensures HexDigit(0) == '0'
  {
    var e := "u00" + [x, y];
    assert buf[i + 0] == e[0] && buf[i + 1] == e[1] && buf[i + 2] == e[2] && buf[i + 3] == e[3] && buf[i + 4] == e[4];
  }

  /** The part after the backslash of the six-character escape of a control character. */
  lemma ParseControl(t: Tok, buf: string, i: nat, c: char) returns (u: Tok)
    requires Wf(t) && t.top.state == StrEscape && c < ' '
    requires At(buf, i, "u00" + [HexDigit(c as nat / 16), HexDigit(c as nat % 16)])
    ensures Wf(u) && SameText(t.To(t.top.saved), u) && u.pb == t.pb + [c]
    ensures Run(t, buf, i) == Run(u, buf, i + 5)
  {
    hide Run, Micro, StepOk, Plain, TopOk, ParentsOk, StateRank, HexDigit, At, StepUnicode, StepString, StepField;
    var hi, lo := c as nat / 16, c as nat % 16;
    ControlChars(buf, i, HexDigit(hi), HexDigit(lo));
    var t1 := t.(ucs := 0, stPos := 0, gotHi := 0).To(EscapeUnicode);
    TextCases(t, buf, i);
    RunNext(t, buf, i, t1, 1);
    var t2 := RunHex(t1, buf, i + 1, 0, 0);
    var t3 := RunHex(t2, buf, i + 2, 0, 0);
    var t4 := RunHex(t3, buf, i + 3, hi, hi * 16);
    u := EndControl(t4, buf, i + 4, c);
  }

  /** The last digit of the escape of a control character. */
  lemma EndControl(t: Tok, buf: string, i: nat, c: char) returns (u: Tok)
    requires Wf(t) && t.top.state == EscapeUnicode && t.stPos == 3 && t.gotHi == 0 && c < ' '
    requires t.ucs == c as nat / 16 * 16 && i < |buf| && buf[i] == HexDigit(c as nat % 16)
    ensures u == t.(ucs := c as nat, stPos := 4, gotHi := 0, pb := t.pb + [c]).To(t.top.saved)
    ensures Wf(u) && Run(t, buf, i) == Run(u, buf, i + 1)
  {
    hide Run, Micro, StepOk, Plain, TopOk, ParentsOk, StateRank, DecodeUnit, HexVal, HexDigit;
    HexDigitVal(c as nat % 16);
    ControlUnit(c);
    FourthDigit(t, buf, i);
    u := t.(ucs := c as nat, stPos := 4, gotHi := 0, pb := t.pb + [c]).To(t.top.saved);
    RunNext(t, buf, i, u, 1);
  }

  lemma ControlUnit(c: char)
    requires c < ' '
    ensures DecodeUnit(0, c as nat) == Bytes([c])
  {
  }

  lemma {:induction false} ParseChars(t: Tok, buf: string, i: nat, s: string, f: Flags) returns (u: Tok)
    requires Wf(t) && (t.top.state == Str || t.top.state == Field) && t.quote == '"'
    requires At(buf, i, Escape(s, f))
    ensures Wf(u) && SameText(t, u) && u.pb == t.pb + s
    ensures Run(t, buf, i) == Run(u, buf, i + |Escape(s, f)|)
    decreases |s|
  {
    hide Run, Micro, StepOk, Plain, EscapeChar, TopOk, ParentsOk, At;
    if s == "" {
      u := t;
    } else {
      AtSplit(buf, i, EscapeChar(s[0], f), Escape(s[1..], f));
      var t1 := ParseChar(t, buf, i, s[0], f);
      u := ParseChars(t1, buf, i + |EscapeChar(s[0], f)|, s[1..], f);
      assert t.pb + [s[0]] + s[1..] == t.pb + s;
    }
  }

  // ------------------------------------------------------------ integers

  lemma {:induction false} DigitPrefixAll(s: string)
    requires AllDigits(s)
    ensures DigitPrefix(s) == s
  {
    if s != "" {
      DigitPrefixAll(s[1..]);
    }
  }

  /** strtoll reads back what snprintf printed. */
  lemma IntCodec(n: int)
    requires INT64_MIN <= n <= INT64_MAX
    ensures ParseInt64(IntText(n)) == Some(n)
  {
    hide Digits, DecVal, DigitPrefix;
    var m := if n < 0 then -n else n;
    DigitsValue(m);
    DigitPrefixAll(Digits(m));
    FirstDigit(Digits(m));
    if n < 0 {
      assert IntText(n)[1..] == Digits(m);
    }
  }

  lemma FirstDigit(s: string)
    requires AllDigits(s) && s != ""
    ensures s[0] != '-' && s[0] != '+'
  {
    assert IsDigit(s[0]);
  }

  lemma {:induction false} RunDigits(t: Tok, buf: string, i: nat, s: string) returns (u: Tok)
    requires Wf(t) && t.top.state == Number
    requires At(buf, i, s) && AllDigits(s)
    ensures Wf(u) && u == t.(pb := t.pb + s, caseLen := t.caseLen + |s|)
    ensures Run(t, buf, i) == Run(u, buf, i + |s|)
    decreases |s|
  {
    hide Run, StepOk, Plain, TopOk, ParentsOk, StateRank, ParseInt64;
    if s == "" {
      assert t.pb + s == t.pb;
      u := t;
    } else {
      assert buf[i + 0] == s[0] && IsDigit(s[0]);
      var t1 := t.(pb := t.pb + [s[0]], caseLen := t.caseLen + 1);
      RunNext(t, buf, i, t1, 1);
      assert s == [s[0]] + s[1..];
      AtSplit(buf, i, [s[0]], s[1..]);
      u := RunDigits(t1, buf, i + 1, s[1..]);
      assert t.pb + [s[0]] + s[1..] == t.pb + s;
    }
  }

  /** A character that ends a number and does not turn a minus sign into -Infinity. */
  predicate Delim(c: char) { !IsNumberChar(c) && c != 'i' && c != 'I' }

  /** u is t with the complete value v at its top level. */
  ghost predicate Done(t: Tok, u: Tok, v: JValue) {
    Wf(u) && u.cfg == t.cfg && u.below == t.below && u.top == Level(EatWs, Finish, v, "")
  }

  lemma ParseInt(t: Tok, buf: string, i: nat, n: int) returns (u: Tok)
    requires Wf(t) && t.top == RESET_LEVEL && INT64_MIN <= n <= INT64_MAX
    requires At(buf, i, IntText(n)) && i + |IntText(n)| < |buf| && Delim(buf[i + |IntText(n)|])
    ensures Done(t, u, JInt(n))
    ensures Run(t, buf, i) == Run(u, buf, i + |IntText(n)|)
  {
    hide Run, StepOk, Plain, TopOk, ParentsOk, StateRank, ParseInt64, StepNumber;
    var s := IntText(n);
    IntFirst(n);
    assert buf[i + 0] == s[0];
    var t1 := t.To(Start);
    RunRedo(t, buf, i, t1);
    var t2 := t1.(pb := "", dbl := false, caseLen := 0, isExp := false, negPos := 1).To(Number);
    RunRedo(t1, buf, i, t2);
    var t3 := RunIntText(t2, buf, i, n);
    u := t3.Value(JInt(n));
    EndInt(t3, buf[i + |s|], n);
    RunRedo(t3, buf, i + |s|, u);
  }

  lemma IntFirst(n: int)
    ensures IntText(n) != "" && (IsDigit(IntText(n)[0]) || IntText(n)[0] == '-')
  {
    DigitsValue(if n < 0 then -n else n);
  }

  lemma MinusStep(t: Tok)
    requires Wf(t) && t.top.state == Number && t.pb == "" && t.caseLen == 0 && t.negPos == 1
    ensures StepNumber(t, '-') == Next(t.(pb := "-", caseLen := 1), 1)
  {
    hide StepOk, Plain, TopOk, ParentsOk, StateRank, ParseInt64;
    assert t.pb + ['-'] == "-";
  }

  lemma RunIntText(t: Tok, buf: string, i: nat, n: int) returns (u: Tok)
    requires Wf(t) && t.top.state == Number && t.pb == "" && t.caseLen == 0 && t.negPos == 1
    requires At(buf, i, IntText(n))
    ensures Wf(u) && u == t.(pb := IntText(n), caseLen := |IntText(n)|)
    ensures Run(t, buf, i) == Run(u, buf, i + |IntText(n)|)
  {
    hide Run, StepOk, Plain, TopOk, ParentsOk, StateRank, StepNumber, Digits, DecVal, AllDigits;
    DigitsValue(if n < 0 then -n else n);
    if n < 0 {
      AtSplit(buf, i, "-", Digits(-n));
      assert buf[i + 0] == "-"[0];
      var t1 := t.(pb := "-", caseLen := 1);
      MinusStep(t);
      RunNext(t, buf, i, t1, 1);
      u := RunDigits(t1, buf, i + 1, Digits(-n));
    } else {
      u := RunDigits(t, buf, i, Digits(n));
      assert t.pb + Digits(n) == Digits(n);
    }
  }

  lemma EndInt(t: Tok, c: char, n: int)
    requires Wf(t) && t.top.state == Number && INT64_MIN <= n <= INT64_MAX
    requires t.pb == IntText(n) && t.caseLen == |t.pb| && !t.dbl && Delim(c)
    ensures StepNumber(t, c) == Redo(t.Value(JInt(n)))
  {
    hide StepOk, Plain, TopOk, ParentsOk, StateRank, ParseInt64;
    IntCodec(n);
    DigitsValue(if n < 0 then -n else n);
  }

  // ------------------------------------------------------------ keywords

  predicate Keyword(w: string) { w == "null" || w == "true" || w == "false" }

  function KeywordState(w: string): State { if w == "null" then Null else Boolean }

  function KeywordValue(w: string): JValue { if w == "null" then JNull else JBool(w == "true") }

  /** j characters of the keyword have been read. */
  ghost predicate InKeyword(t: Tok, w: string, j: nat) {
    Keyword(w) && j <= |w| && t.top.state == KeywordState(w) && t.pb == w[..j] && t.stPos == j
  }

  lemma MatchesPrefix(w: string, n: nat, pb: string, fold: bool)
    requires n <= |w| && n <= |pb| && pb[..n] == w[..n]
    ensures Matches(w, n, pb, fold)
  {
    forall k | 0 <= k < n ensures pb[k] == w[k] {
      assert pb[..n][k] == w[..n][k];
    }
  }

  lemma NotTrue(pb: string, n: nat, fold: bool)
    requires 1 <= n <= 4 && pb != "" && pb[0] == 'f'
    ensures !Matches("true", n, pb, fold)
  {
    assert pb[0] != "true"[0] && Lower(pb[0]) != Lower("true"[0]);
  }

  lemma KeywordStep(t: Tok, w: string, j: nat, c: char)
    requires Wf(t) && InKeyword(t, w, j) && (j < |w| ==> c == w[j])
    ensures (if w == "null" then StepNull(t, c) else StepBoolean(t, c)) ==
            if j < |w| then Next(t.(pb := w[..j + 1], stPos := j + 1), 1)
            else Redo(t.Append([c]).Value(KeywordValue(w)))
  {
    hide StepOk, Plain, TopOk, ParentsOk, StateRank, Matches;
    var pb := t.pb + [c];
    var n := Min(j + 1, |w|);
    assert pb[..n] == w[..n];
    assert pb == w[..j] + [c];
    if j < |w| {
      assert pb == w[..j + 1];
    }
    MatchesPrefix(w, n, pb, !t.cfg.strict);
    if w == "false" {
      assert pb[0] == w[0];
      NotTrue(pb, Min(j + 1, 4), !t.cfg.strict);
    }
  }

  lemma KeywordCase(t: Tok, buf: string, i: nat, w: string, j: nat)
    requires Wf(t) && InKeyword(t, w, j) && i < |buf|
    ensures Micro(t, buf, i) == if w == "null" then StepNull(t, buf[i]) else StepBoolean(t, buf[i])
    ensures j < |w| ==> w[j] != '\0'
  {
    hide StepOk, Plain, TopOk, ParentsOk, StateRank, StepNull, StepBoolean;
  }

  lemma {:induction false} RunKeyword(t: Tok, buf: string, i: nat, w: string, j: nat) returns (u: Tok)
    requires Wf(t) && InKeyword(t, w, j)
    requires At(buf, i, w[j..]) && i + |w| - j < |buf|
    ensures Wf(u) && u.cfg == t.cfg && u.below == t.below
    ensures u.top == t.top.(state := EatWs, saved := Finish, current := KeywordValue(w))
    ensures Run(t, buf, i) == Run(u, buf, i + |w| - j)
    decreases |w| - j
  {
    hide Run, Micro, StepOk, Plain, TopOk, ParentsOk, StateRank, StepNull, StepBoolean, Keyword;
    KeywordCase(t, buf, i, w, j);
    if j < |w| {
      assert buf[i + 0] == w[j..][0];
      KeywordStep(t, w, j, w[j]);
      var t1 := t.(pb := w[..j + 1], stPos := j + 1);
      RunNext(t, buf, i, t1, 1);
      assert w[j..] == [w[j]] + w[j + 1..];
      AtSplit(buf, i, [w[j]], w[j + 1..]);
      u := RunKeyword(t1, buf, i + 1, w, j + 1);
    } else {
      KeywordStep(t, w, j, buf[i]);
      u := t.Append([buf[i]]).Value(KeywordValue(w));
      RunRedo(t, buf, i, u);
    }
  }

  lemma ParseKeyword(t: Tok, buf: string, i: nat, w: string) returns (u: Tok)
    requires Wf(t) && t.top == RESET_LEVEL && Keyword(w)
    requires At(buf, i, w) && i + |w| < |buf|
    ensures Done(t, u, KeywordValue(w))
    ensures Run(t, buf, i) == Run(u, buf, i + |w|)
  {
    hide Run, StepOk, Plain, TopOk, ParentsOk, StateRank;
    assert buf[i + 0] == w[0];
    var t1 := t.To(Start);
    RunRedo(t, buf, i, t1);
    var t2 := t1.(pb := "", stPos := 0).To(KeywordState(w));
    RunRedo(t1, buf, i, t2);
    assert w[0..] == w;
    u := RunKeyword(t2, buf, i, w, 0);
  }

  // ------------------------------------------------------------ strings and keys

  lemma ParseString(t: Tok, buf: string, i: nat, s: string, f: Flags) returns (u: Tok)
    requires Wf(t) && t.top == RESET_LEVEL
    requires At(buf, i, "\"" + Escape(s, f) + "\"")
    ensures Done(t, u, JString(s))
    ensures Run(t, buf, i) == Run(u, buf, i + |Escape(s, f)| + 2)
  {
    hide Run, StepOk, Plain, TopOk, ParentsOk, StateRank, Escape;
    AtSplit(buf, i, "\"" + Escape(s, f), "\"");
    AtSplit(buf, i, "\"", Escape(s, f));
    var j := i + 1 + |Escape(s, f)|;
    assert buf[i + 0] == "\""[0] && buf[j + 0] == "\""[0];
    var t1 := t.To(Start);
    RunRedo(t, buf, i, t1);
    var t2 := t1.(pb := "", quote := '"').To(Str);
    RunNext(t1, buf, i, t2, 1);
    var t3 := ParseChars(t2, buf, i + 1, s, f);
    assert t3.pb == s;
    u := t3.Value(JString(s));
    RunNext(t3, buf, j, u, 1);
  }

  lemma KeyParts(buf: string, i: nat, key: string, f: Flags)
    requires At(buf, i, KeyText(key, f))
    ensures i < |buf| && buf[i] == '"'
    ensures At(buf, i + 1, Escape(key, f))
    ensures At(buf, i + 1 + |Escape(key, f)|, "\":" + if f.spaced then " " else "")
  {
    hide Escape;
    var colon := "\":" + if f.spaced then " " else "";
    assert KeyText(key, f) == "\"" + (Escape(key, f) + colon);
    AtSplit(buf, i, "\"", Escape(key, f) + colon);
    AtSplit(buf, i + 1, Escape(key, f), colon);
    assert buf[i + 0] == "\""[0];
  }

  /** From the closing quote of a key to the white space after the colon. */
  lemma EndKey(t: Tok, buf: string, i: nat, ws: string) returns (u: Tok)
    requires Wf(t) && t.top.state == Field && t.quote == '"'
    requires At(buf, i, "\":" + ws) && AllWs(ws)
    ensures Wf(u) && u == t.(top := Level(EatWs, ObjValue, t.top.current, CString(t.pb)))
    ensures Run(t, buf, i) == Run(u, buf, i + 2 + |ws|)
  {
    hide Run, StepOk, Plain, TopOk, ParentsOk, StateRank;
    AtSplit(buf, i, "\":", ws);
    assert buf[i + 0] == "\":"[0] && buf[i + 1] == "\":"[1];
    var t1 := t.(top := t.top.(state := EatWs, saved := FieldEnd, field := CString(t.pb)));
    RunNext(t, buf, i, t1, 1);
    var t2 := t1.To(FieldEnd);
    RunRedo(t1, buf, i + 1, t2);
    u := t2.WsThen(ObjValue);
    RunNext(t2, buf, i + 1, u, 1);
    SkipWs(u, buf, i + 2, ws);
  }

  /** From the first quote of a key to the white space after the colon. */
  lemma ParseKey(t: Tok, buf: string, i: nat, key: string, f: Flags) returns (u: Tok)
    requires Wf(t) && (t.top.state == FieldStart || t.top.state == FieldStartAfterSep) && '\0' !in key
    requires At(buf, i, KeyText(key, f))
    ensures Wf(u) && u.cfg == t.cfg && u.below == t.below
    ensures u.top == Level(EatWs, ObjValue, t.top.current, key)
    ensures Run(t, buf, i) == Run(u, buf, i + |KeyText(key, f)|)
  {
    hide Run, StepOk, Plain, TopOk, ParentsOk, StateRank, Escape, At;
    KeyParts(buf, i, key, f);
    var t1 := t.(quote := '"', pb := "").To(Field);
    RunNext(t, buf, i, t1, 1);
    var t2 := ParseChars(t1, buf, i + 1, key, f);
    assert t2.pb == key;
    u := EndKey(t2, buf, i + 1 + |Escape(key, f)|, if f.spaced then " " else "");
  }

  // ------------------------------------------------------------ going back to the container

  /** What the container at p looks like once it has the value v. */
  function Added(p: Level, v: JValue): Level
    requires ParentOk(p)
  {
    if p.state == ArrayAdd then Level(EatWs, ArraySep, JArray(p.current.elems + [v]), p.field)
    else Level(EatWs, ObjSep, JObject(AddMember(p.current.members, p.field, v)), "")
  }

  /** After white space and before a separator, a complete value is as good as already added. */
  lemma Pop(t: Tok, buf: string, i: nat, v: JValue, ws: string) returns (u: Tok)
    requires Wf(t) && t.below != [] && t.top == Level(EatWs, Finish, v, "")
    requires At(buf, i, ws) && AllWs(ws) && i + |ws| < |buf|
    requires !IsSpace(buf[i + |ws|]) && buf[i + |ws|] != '/'
    ensures ParentOk(t.below[|t.below| - 1])
    ensures Wf(u) && u == t.(obj := v, below := t.below[..|t.below| - 1], top := Added(t.below[|t.below| - 1], v))
    ensures Run(t, buf, i) == Run(u, buf, i)
  {
    hide Run, StepOk, Plain, TopOk, StateRank;
    SkipWs(t, buf, i, ws);
    var j, n := i + |ws|, |t.below| - 1;
    var t1 := t.To(Finish);
    RunRedo(t, buf, j, t1);
    var t2 := t1.(obj := v, below := t.below[..n], top := t.below[n]);
    RunRedo(t1, buf, j, t2);
    u := t2.(top := Added(t.below[n], v));
    RunRedo(t2, buf, j, u);
    SkipWs(u, buf, i, ws);
  }

  lemma LayoutIsWs(k: nat, level: nat, f: Flags)
    ensures AllWs(NewLine(f)) && AllWs(LeadWs(level, f))
    ensures AllWs(CloseWs(true, level, f)) && AllWs(CloseWs(false, level, f))
  {
  }

  /** The text of an array from its k-th element on. */
  function ArrayRest(es: seq<JValue>, k: nat, level: nat, f: Flags): string
    requires k <= |es|
  {
    ElemsText(es, k, level + 1, f) + CloseWs(es == [], level, f) + "]"
  }

  /** The text of an object from its k-th member on. */
  function ObjectRest(ms: seq<Member>, k: nat, level: nat, f: Flags): string
    requires k <= |ms|
  {
    MembersText(ms, k, level + 1, f) + CloseWs(ms == [], level, f) + "}"
  }

  lemma ArrayRestSplit(es: seq<JValue>, k: nat, level: nat, f: Flags)
    requires k <= |es|
    ensures Text(JArray(es), level, f) == ['['] + (NewLine(f) + ArrayRest(es, 0, level, f))
    ensures k == |es| ==> ArrayRest(es, k, level, f) == CloseWs(es == [], level, f) + [']']
    ensures k < |es| ==>
              (ArrayRest(es, k, level, f) ==
               Lead(k, level + 1, f) + (Text(es[k], level + 1, f) + ArrayRest(es, k + 1, level, f)))
  {
    hide Lead, CloseWs, NewLine;
  }

  lemma ObjectRestSplit(ms: seq<Member>, k: nat, level: nat, f: Flags)
    requires k <= |ms|
    ensures Text(JObject(ms), level, f) == ['{'] + (NewLine(f) + ObjectRest(ms, 0, level, f))
    ensures k == |ms| ==> ObjectRest(ms, k, level, f) == CloseWs(ms == [], level, f) + ['}']
    ensures k < |ms| ==>
              (ObjectRest(ms, k, level, f) ==
               Lead(k, level + 1, f) +
               (KeyText(ms[k].key, f) + (Text(ms[k].val, level + 1, f) + ObjectRest(ms, k + 1, level, f))))
  {
    hide Lead, CloseWs, NewLine, KeyText;
  }

  /** The part of a container's text after its k-th child begins with white space and a
      separator. */
  ghost predicate SepFollows(rest: string, ws: string, close: char) {
    AllWs(ws) && |ws| < |rest| && rest[..|ws|] == ws && (rest[|ws|] == ',' || rest[|ws|] == close)
  }

  lemma AfterElem(es: seq<JValue>, k: nat, level: nat, f: Flags) returns (ws: string)
    requires 0 < k <= |es|
    ensures SepFollows(ArrayRest(es, k, level, f), ws, ']')
  {
    hide Text;
    LayoutIsWs(k, level, f);
    ws := if k < |es| then "" else CloseWs(false, level, f);
    assert ArrayRest(es, k, level, f)[..|ws|] == ws;
  }

  lemma AfterMember(ms: seq<Member>, k: nat, level: nat, f: Flags) returns (ws: string)
    requires 0 < k <= |ms|
    ensures SepFollows(ObjectRest(ms, k, level, f), ws, '}')
  {
    hide Text, KeyText;
    LayoutIsWs(k, level, f);
    ws := if k < |ms| then "" else CloseWs(false, level, f);
    assert ObjectRest(ms, k, level, f)[..|ws|] == ws;
  }

  lemma SepMeans(buf: string, i: nat, rest: string, ws: string, close: char)
    requires At(buf, i, rest) && SepFollows(rest, ws, close) && (close == ']' || close == '}')
    ensures At(buf, i, ws) && AllWs(ws) && i + |ws| < |buf|
    ensures !IsSpace(buf[i + |ws|]) && buf[i + |ws|] != '/'
    ensures Delim(buf[i])
  {
    forall j | 0 <= j < |ws| ensures buf[i + j] == ws[j] {
      assert rest[..|ws|][j] == rest[j];
    }
    assert buf[i + |ws|] == rest[|ws|];
    if ws != "" { assert buf[i + 0] == ws[0]; }
  }

  // ------------------------------------------------------------ values

  /** Only a number and a keyword need the next character to know that they are complete. */
  predicate Bracketed(v: JValue) { v.JString? || v.JArray? || v.JObject? }

  ghost predicate EndSeen(v: JValue, buf: string, j: nat) {
    Bracketed(v) || (j < |buf| && Delim(buf[j]))
  }

  lemma ParseValue(t: Tok, buf: string, i: nat, v: JValue, level: nat, f: Flags) returns (u: Tok)
    requires Wf(t) && t.top == RESET_LEVEL
    requires Printable(v) && Fits(v, t.cfg.maxDepth - 1 - |t.below|)
    requires At(buf, i, Text(v, level, f)) && EndSeen(v, buf, i + |Text(v, level, f)|)
    ensures Done(t, u, v)
    ensures Run(t, buf, i) == Run(u, buf, i + |Text(v, level, f)|)
    decreases v, 0
  {
    hide Run, Micro, StepOk, Plain, TopOk, ParentsOk, StateRank, At, Escape, IntText, ElemsText, MembersText, CloseWs, NewLine,
         ArrayRest, ObjectRest, Done;
    match v
    case JNull => u := ParseKeyword(t, buf, i, "null");
    case JBool(b) => u := ParseKeyword(t, buf, i, if b then "true" else "false");
    case JInt(n) => u := ParseInt(t, buf, i, n);
    case JString(s) => u := ParseString(t, buf, i, s, f);
    case JArray(es) => u := ParseArray(t, buf, i, es, level, f);
    case JObject(ms) => u := ParseObject(t, buf, i, ms, level, f);
  }

  lemma ParseArray(t: Tok, buf: string, i: nat, es: seq<JValue>, level: nat, f: Flags) returns (u: Tok)
    requires Wf(t) && t.top == RESET_LEVEL
    requires Printable(JArray(es)) && Fits(JArray(es), t.cfg.maxDepth - 1 - |t.below|)
    requires At(buf, i, Text(JArray(es), level, f))
    ensures Done(t, u, JArray(es))
    ensures Run(t, buf, i) == Run(u, buf, i + |Text(JArray(es), level, f)|)
    decreases es, |es| + 1, 0
  {
    hide Run, Micro, StepOk, Plain, TopOk, ParentsOk, StateRank, At, Text, NewLine, ArrayRest;
    LayoutIsWs(0, level, f);
    ArrayRestSplit(es, 0, level, f);
    var t1 := OpenContainer(t, buf, i, '[', NewLine(f), ArrayRest(es, 0, level, f));
    u := ParseElems(t1, buf, i + 1 + |NewLine(f)|, es, 0, level, f);
  }

  lemma ParseObject(t: Tok, buf: string, i: nat, ms: seq<Member>, level: nat, f: Flags) returns (u: Tok)
    requires Wf(t) && t.top == RESET_LEVEL
    requires Printable(JObject(ms)) && Fits(JObject(ms), t.cfg.maxDepth - 1 - |t.below|)
    requires At(buf, i, Text(JObject(ms), level, f))
    ensures Done(t, u, JObject(ms))
    ensures Run(t, buf, i) == Run(u, buf, i + |Text(JObject(ms), level, f)|)
    decreases ms, |ms| + 1, 0
  {
    hide Run, Micro, StepOk, Plain, TopOk, ParentsOk, StateRank, At, Text, NewLine, ObjectRest, Printable, Fits, AllWs, CloseWs, LeadWs;
    LayoutIsWs(0, level, f);
    ObjectRestSplit(ms, 0, level, f);
    assert ms[..0] == [];
    var t1 := OpenContainer(t, buf, i, '{', NewLine(f), ObjectRest(ms, 0, level, f));
    u := ParseMembers(t1, buf, i + 1 + |NewLine(f)|, ms, 0, level, f);
  }

  lemma OpenContainer(t: Tok, buf: string, i: nat, open: char, nl: string, rest: string) returns (u: Tok)
    requires Wf(t) && t.top == RESET_LEVEL && (open == '[' || open == '{')
    requires At(buf, i, [open] + (nl + rest)) && AllWs(nl)
    ensures At(buf, i + 1 + |nl|, rest)
    ensures Wf(u) && u == t.(top := if open == '[' then Level(EatWs, Array, JArray([]), "")
                                    else Level(EatWs, FieldStart, JObject([]), ""))
    ensures Run(t, buf, i) == Run(u, buf, i + 1 + |nl|)
  {
    hide Run, StepOk, Plain, TopOk, ParentsOk, StateRank;
    AtSplit(buf, i, [open], nl + rest);
    AtSplit(buf, i + 1, nl, rest);
    assert buf[i + 0] == [open][0];
    var t1 := t.To(Start);
    RunRedo(t, buf, i, t1);
    u := t.(top := if open == '[' then Level(EatWs, Array, JArray([]), "")
                   else Level(EatWs, FieldStart, JObject([]), ""));
    RunNext(t1, buf, i, u, 1);
    SkipWs(u, buf, i + 1, nl);
  }

  /** The closing bracket of a container, after white space. */
  lemma CloseContainer(t: Tok, buf: string, i: nat, ws: string, close: char) returns (u: Tok)
    requires Wf(t) && t.top.state == EatWs && AllWs(ws) && At(buf, i, ws + [close])
    requires (close == ']' && (t.top.saved == Array || t.top.saved == ArraySep)) ||
             (close == '}' && (t.top.saved == FieldStart || t.top.saved == ObjSep))
    ensures Wf(u) && u == t.(top := t.top.(saved := Finish))
    ensures Run(t, buf, i) == Run(u, buf, i + |ws| + 1)
  {
    hide Run, StepOk, Plain, TopOk, ParentsOk, StateRank;
    AtSplit(buf, i, ws, [close]);
    SkipWs(t, buf, i, ws);
    var j := i + |ws|;
    assert buf[j + 0] == [close][0];
    var t1 := t.To(t.top.saved);
    RunRedo(t, buf, j, t1);
    u := t1.WsThen(Finish);
    RunNext(t1, buf, j, u, 1);
  }

  /** The comma before the k-th child, if k > 0, and the white space before the child. */
  lemma ParseLead(t: Tok, buf: string, i: nat, k: nat, level: nat, f: Flags) returns (u: Tok)
    requires Wf(t) && t.top.state == EatWs && At(buf, i, Lead(k, level, f))
    requires t.top.saved == (if k == 0 then Array else ArraySep) || t.top.saved == (if k == 0 then FieldStart else ObjSep)
    ensures Wf(u)
    ensures u == if k == 0 then t
                 else if t.top.saved == ArraySep then t.(top := t.top.(saved := ArrayAfterSep))
                 else t.(top := t.top.(saved := FieldStartAfterSep))
    ensures Run(t, buf, i) == Run(u, buf, i + |Lead(k, level, f)|)
  {
    hide Run, StepOk, Plain, TopOk, ParentsOk, StateRank, NewLine, LeadWs, AllWs, At;
    LayoutIsWs(k, level, f);
    var nl, ws := NewLine(f), LeadWs(level, f);
    if k == 0 {
      u := t;
      assert Lead(k, level, f) == ws;
      SkipWs(u, buf, i, ws);
    } else {
      assert Lead(k, level, f) == "," + (nl + ws);
      AtSplit(buf, i, ",", nl + ws);
      AtSplit(buf, i + 1, nl, ws);
      AtFirst(buf, i, ",");
      var t1 := t.To(t.top.saved);
      RunRedo(t, buf, i, t1);
      u := t1.WsThen(if t.top.saved == ArraySep then ArrayAfterSep else FieldStartAfterSep);
      RunNext(t1, buf, i, u, 1);
      SkipWs(u, buf, i + 1, nl);
      SkipWs(u, buf, i + 1 + |nl|, ws);
    }
  }

  /** The first character of a printed value. */
  lemma TextStart(v: JValue, level: nat, f: Flags)
    requires Printable(v)
    ensures Text(v, level, f) != "" && !IsSpace(Text(v, level, f)[0])
    ensures Text(v, level, f)[0] != '/' && Text(v, level, f)[0] != ']'
  {
    hide Escape, ElemsText, MembersText, CloseWs, IntText;
    if v.JInt? { IntFirst(v.n); }
  }

  /** A container's level while the child is parsed above it. */
  function WaitingFor(l: Level): Level {
    l.(state := if l.saved == ObjValue then ObjValueAdd else ArrayAdd)
  }

  /** The first character of a child opens a new level. */
  lemma RunPush(t: Tok, buf: string, i: nat) returns (u: Tok)
    requires Wf(t) && t.top.state == EatWs && |t.below| + 1 < t.cfg.maxDepth
    requires t.top.saved == Array || t.top.saved == ArrayAfterSep || t.top.saved == ObjValue
    requires i < |buf| && !IsSpace(buf[i]) && buf[i] != '/' && buf[i] != ']'
    ensures Wf(u) && u == t.(top := RESET_LEVEL, below := t.below + [WaitingFor(t.top)])
    ensures Run(t, buf, i) == Run(u, buf, i)
  {
    hide Run, StepOk, Plain, TopOk, ParentsOk, StateRank;
    var t1 := t.To(t.top.saved);
    RunRedo(t, buf, i, t1);
    u := t.(top := RESET_LEVEL, below := t.below + [WaitingFor(t.top)]);
    RunRedo(t1, buf, i, u);
  }

  /** One child: a new level is opened for it, and it ends up in the container. */
  lemma ParseChild(t: Tok, buf: string, i: nat, v: JValue, level: nat, f: Flags,
                   rest: string, ws: string, close: char) returns (u: Tok)
    requires Wf(t) && t.top.state == EatWs
    requires t.top.saved == Array || t.top.saved == ArrayAfterSep || t.top.saved == ObjValue
    requires Printable(v) && Fits(v, t.cfg.maxDepth - 2 - |t.below|)
    requires At(buf, i, Text(v, level, f) + rest)
    requires SepFollows(rest, ws, close) && (close == ']' || close == '}')
    ensures Wf(u) && u.cfg == t.cfg && u.below == t.below
    ensures At(buf, i + |Text(v, level, f)|, rest)
    ensures ParentOk(WaitingFor(t.top)) && u.top == Added(WaitingFor(t.top), v)
    ensures Run(t, buf, i) == Run(u, buf, i + |Text(v, level, f)|)
    decreases v, 1
  {
    hide Run, Micro, StepOk, Plain, TopOk, ParentsOk, StateRank, At, Text, SepFollows;
    var n := |Text(v, level, f)|;
    AtSplit(buf, i, Text(v, level, f), rest);
    TextStart(v, level, f);
    AtFirst(buf, i, Text(v, level, f));
    var t1 := RunPush(t, buf, i);
    SepMeans(buf, i + n, rest, ws, close);
    var t2 := ParseValue(t1, buf, i, v, level, f);
    u := Pop(t2, buf, i + n, v, ws);
    assert t2.below[..|t.below|] == t.below;
  }

  lemma AtFirst(buf: string, i: nat, s: string)
    requires At(buf, i, s) && s != ""
    ensures i < |buf| && buf[i] == s[0]
  {
    assert buf[i + 0] == s[0];
  }

  lemma ElemOk(es: seq<JValue>, k: nat, room: int)
    requires k < |es| && Printable(JArray(es)) && Fits(JArray(es), room)
    ensures Printable(es[k]) && Fits(es[k], room - 1)
  {
  }

  lemma MemberOk(ms: seq<Member>, k: nat, room: int)
    requires k < |ms| && Printable(JObject(ms)) && Fits(JObject(ms), room)
    ensures UniqueKeys(ms) && '\0' !in ms[k].key && Printable(ms[k].val) && Fits(ms[k].val, room - 1)
  {
  }

  lemma ElemAdded(l: Level, es: seq<JValue>, k: nat)
    requires k < |es| && l == Level(EatWs, if k == 0 then Array else ArrayAfterSep, JArray(es[..k]), "")
    requires ParentOk(WaitingFor(l))
    ensures Added(WaitingFor(l), es[k]) == Level(EatWs, ArraySep, JArray(es[..k + 1]), "")
  {
    assert es[..k] + [es[k]] == es[..k + 1];
  }

  lemma MemberAdded(l: Level, ms: seq<Member>, k: nat)
    requires k < |ms| && UniqueKeys(ms) && l == Level(EatWs, ObjValue, JObject(ms[..k]), ms[k].key)
    requires ParentOk(WaitingFor(l))
    ensures Added(WaitingFor(l), ms[k].val) == Level(EatWs, ObjSep, JObject(ms[..k + 1]), "")
  {
    hide AddMember, UniqueKeys;
    AddNext(ms, k);
  }

  /** What is printed before the k-th element. */
  lemma EnterElem(t: Tok, buf: string, i: nat, es: seq<JValue>, k: nat, level: nat, f: Flags) returns (u: Tok, n: nat)
    requires Wf(t) && k < |es|
    requires t.top == Level(EatWs, if k == 0 then Array else ArraySep, JArray(es[..k]), "")
    requires At(buf, i, ArrayRest(es, k, level, f))
    ensures Wf(u) && u.cfg == t.cfg && u.below == t.below
    ensures u.top == Level(EatWs, if k == 0 then Array else ArrayAfterSep, JArray(es[..k]), "")
    ensures At(buf, i + n, Text(es[k], level + 1, f) + ArrayRest(es, k + 1, level, f))
    ensures n + |Text(es[k], level + 1, f)| + |ArrayRest(es, k + 1, level, f)| == |ArrayRest(es, k, level, f)|
    ensures Run(t, buf, i) == Run(u, buf, i + n)
  {
    hide Run, Micro, StepOk, Plain, TopOk, ParentsOk, StateRank, At, Text, CloseWs, Lead, ArrayRest, AllWs, Wf;
    var lead := Lead(k, level + 1, f);
    ArrayRestSplit(es, k, level, f);
    AtSplit(buf, i, lead, Text(es[k], level + 1, f) + ArrayRest(es, k + 1, level, f));
    u := ParseLead(t, buf, i, k, level + 1, f);
    n := |lead|;
  }

  /** The k-th element, with what is printed before it. */
  lemma ParseElem(t: Tok, buf: string, i: nat, es: seq<JValue>, k: nat, level: nat, f: Flags)
    returns (u: Tok, n: nat)
    requires Wf(t) && k < |es|
    requires t.top == Level(EatWs, if k == 0 then Array else ArraySep, JArray(es[..k]), "")
    requires Printable(JArray(es)) && Fits(JArray(es), t.cfg.maxDepth - 1 - |t.below|)
    requires At(buf, i, ArrayRest(es, k, level, f))
    ensures Wf(u) && u.cfg == t.cfg && u.below == t.below
    ensures u.top == Level(EatWs, ArraySep, JArray(es[..k + 1]), "")
    ensures n + |ArrayRest(es, k + 1, level, f)| == |ArrayRest(es, k, level, f)|
    ensures At(buf, i + n, ArrayRest(es, k + 1, level, f))
    ensures Run(t, buf, i) == Run(u, buf, i + n)
    decreases es, |es| - k, 0
  {
    hide Run, Micro, StepOk, Plain, TopOk, ParentsOk, StateRank, At, Text, CloseWs, Lead, SepFollows, ArrayRest,
         Printable, Fits, AllWs, Wf, Added, WaitingFor;
    ElemOk(es, k, t.cfg.maxDepth - 1 - |t.below|);
    var t1, m := EnterElem(t, buf, i, es, k, level, f);
    var ws := AfterElem(es, k + 1, level, f);
    u := ParseChild(t1, buf, i + m, es[k], level + 1, f, ArrayRest(es, k + 1, level, f), ws, ']');
    ElemAdded(t1.top, es, k);
    n := m + |Text(es[k], level + 1, f)|;
  }

  lemma ParseElems(t: Tok, buf: string, i: nat, es: seq<JValue>, k: nat, level: nat, f: Flags) returns (u: Tok)
    requires Wf(t) && k <= |es|
    requires t.top == Level(EatWs, if k == 0 then Array else ArraySep, JArray(es[..k]), "")
    requires Printable(JArray(es)) && Fits(JArray(es), t.cfg.maxDepth - 1 - |t.below|)
    requires At(buf, i, ArrayRest(es, k, level, f))
    ensures Done(t, u, JArray(es))
    ensures Run(t, buf, i) == Run(u, buf, i + |ArrayRest(es, k, level, f)|)
    decreases es, |es| - k, 1
  {
    hide Run, Micro, StepOk, Plain, TopOk, ParentsOk, StateRank, At, Text, CloseWs, ArrayRest, Printable, Fits, AllWs;
    if k == |es| {
      LayoutIsWs(k, level, f);
      ArrayRestSplit(es, k, level, f);
      assert es[..k] == es;
      u := CloseContainer(t, buf, i, CloseWs(es == [], level, f), ']');
    } else {
      var t1, n := ParseElem(t, buf, i, es, k, level, f);
      u := ParseElems(t1, buf, i + n, es, k + 1, level, f);
    }
  }

  /** What is printed before the value of the k-th member: the layout and the key. */
  lemma EnterMember(t: Tok, buf: string, i: nat, ms: seq<Member>, k: nat, level: nat, f: Flags) returns (u: Tok, n: nat)
    requires Wf(t) && k < |ms| && '\0' !in ms[k].key
    requires t.top == Level(EatWs, if k == 0 then FieldStart else ObjSep, JObject(ms[..k]), "")
    requires At(buf, i, ObjectRest(ms, k, level, f))
    ensures Wf(u) && u.cfg == t.cfg && u.below == t.below
    ensures u.top == Level(EatWs, ObjValue, JObject(ms[..k]), ms[k].key)
    ensures At(buf, i + n, Text(ms[k].val, level + 1, f) + ObjectRest(ms, k + 1, level, f))
    ensures n + |Text(ms[k].val, level + 1, f)| + |ObjectRest(ms, k + 1, level, f)| == |ObjectRest(ms, k, level, f)|
    ensures Run(t, buf, i) == Run(u, buf, i + n)
  {
    hide Run, Micro, StepOk, Plain, TopOk, ParentsOk, StateRank, At, Text, CloseWs, Lead, KeyText, ObjectRest, AllWs, Wf;
    var lead, key := Lead(k, level + 1, f), KeyText(ms[k].key, f);
    var tail := Text(ms[k].val, level + 1, f) + ObjectRest(ms, k + 1, level, f);
    ObjectRestSplit(ms, k, level, f);
    AtSplit(buf, i, lead, key + tail);
    AtSplit(buf, i + |lead|, key, tail);
    var t1 := ParseLead(t, buf, i, k, level + 1, f);
    u := EnterKey(t1, buf, i + |lead|, ms[k].key, f);
    n := |lead| + |key|;
  }

  /** The k-th member, with what is printed before it. */
  lemma ParseMember(t: Tok, buf: string, i: nat, ms: seq<Member>, k: nat, level: nat, f: Flags)
    returns (u: Tok, n: nat)
    requires Wf(t) && k < |ms|
    requires t.top == Level(EatWs, if k == 0 then FieldStart else ObjSep, JObject(ms[..k]), "")
    requires Printable(JObject(ms)) && Fits(JObject(ms), t.cfg.maxDepth - 1 - |t.below|)
    requires At(buf, i, ObjectRest(ms, k, level, f))
    ensures Wf(u) && u.cfg == t.cfg && u.below == t.below
    ensures u.top == Level(EatWs, ObjSep, JObject(ms[..k + 1]), "")
    ensures n + |ObjectRest(ms, k + 1, level, f)| == |ObjectRest(ms, k, level, f)|
    ensures At(buf, i + n, ObjectRest(ms, k + 1, level, f))
    ensures Run(t, buf, i) == Run(u, buf, i + n)
    decreases ms, |ms| - k, 0
  {
    hide Run, Micro, StepOk, Plain, TopOk, ParentsOk, StateRank, At, Text, CloseWs, Lead, KeyText, SepFollows, ObjectRest,
         AddMember, Printable, Fits, AllWs, UniqueKeys, Wf, Added, WaitingFor;
    MemberOk(ms, k, t.cfg.maxDepth - 1 - |t.below|);
    var t1, m := EnterMember(t, buf, i, ms, k, level, f);
    var ws := AfterMember(ms, k + 1, level, f);
    u := ParseChild(t1, buf, i + m, ms[k].val, level + 1, f, ObjectRest(ms, k + 1, level, f), ws, '}');
    MemberAdded(t1.top, ms, k);
    n := m + |Text(ms[k].val, level + 1, f)|;
  }

  lemma ParseMembers(t: Tok, buf: string, i: nat, ms: seq<Member>, k: nat, level: nat, f: Flags) returns (u: Tok)
    requires Wf(t) && k <= |ms|
    requires t.top == Level(EatWs, if k == 0 then FieldStart else ObjSep, JObject(ms[..k]), "")
    requires Printable(JObject(ms)) && Fits(JObject(ms), t.cfg.maxDepth - 1 - |t.below|)
    requires At(buf, i, ObjectRest(ms, k, level, f))
    ensures Done(t, u, JObject(ms))
    ensures Run(t, buf, i) == Run(u, buf, i + |ObjectRest(ms, k, level, f)|)
    decreases ms, |ms| - k, 1
  {
    hide Run, Micro, StepOk, Plain, TopOk, ParentsOk, StateRank, At, Text, CloseWs, ObjectRest, Printable, Fits, AllWs;
    if k == |ms| {
      LayoutIsWs(k, level, f);
      ObjectRestSplit(ms, k, level, f);
      assert ms[..k] == ms;
      u := CloseContainer(t, buf, i, CloseWs(ms == [], level, f), '}');
    } else {
      var t1, n := ParseMember(t, buf, i, ms, k, level, f);
      u := ParseMembers(t1, buf, i + n, ms, k + 1, level, f);
    }
  }

  lemma EnterKey(t: Tok, buf: string, i: nat, key: string, f: Flags) returns (u: Tok)
    requires Wf(t) && t.top.state == EatWs && '\0' !in key
    requires t.top.saved == FieldStart || t.top.saved == FieldStartAfterSep
    requires At(buf, i, KeyText(key, f))
    ensures Wf(u) && u.cfg == t.cfg && u.below == t.below
    ensures u.top == Level(EatWs, ObjValue, t.top.current, key)
    ensures Run(t, buf, i) == Run(u, buf, i + |KeyText(key, f)|)
  {
    hide Run, StepOk, Plain, TopOk, ParentsOk, StateRank;
    AtFirst(buf, i, KeyText(key, f));
    var t1 := t.To(t.top.saved);
    RunRedo(t, buf, i, t1);
    u := ParseKey(t1, buf, i, key, f);
  }

  /** Adding the members one by one keeps their order. */
  lemma AddNext(ms: seq<Member>, k: nat)
    requires k < |ms| && UniqueKeys(ms)
    ensures AddMember(ms[..k], ms[k].key, ms[k].val) == ms[..k + 1]
  {
    var i := FindKey(ms[..k], ms[k].key);
    assert i == k;
    assert ms[..k] + [ms[k]] == ms[..k + 1];
  }

  // ------------------------------------------------------------ the theorem

  /** A tokener between documents. */
  ghost predicate Ready(t: Tok) { Wf(t) && t.below == [] && t.top == RESET_LEVEL }

  /** The NUL-terminated text of any printable value parses back to that value. */
  lemma RoundTripZ(t: Tok, v: JValue, f: Flags)
    requires Ready(t) && Printable(v) && Fits(v, t.cfg.maxDepth - 1)
    ensures var r := ParseZ(t, Text(v, 0, f));
            r.err == Success && r.value == v && r.off == |Text(v, 0, f)|
  {
    hide StepOk, Plain, TopOk, ParentsOk, StateRank, Text;
    var text := Text(v, 0, f);
    var buf := text + ['\0'];
    var s := StartCall(t);
    assert buf[|text|] == '\0';
    var u := ParseValue(s, buf, 0, v, 0, f);
    EndZ(u, buf, |text|, v);
  }

  lemma EndZ(u: Tok, buf: string, i: nat, v: JValue)
    requires Wf(u) && u.below == [] && u.top == Level(EatWs, Finish, v, "")
    requires i < |buf| && buf[i] == '\0'
    ensures var h := Run(u, buf, i);
            h.off == i && h.err == Success && h.nul && h.t.top == Level(Finish, Finish, v, "") && h.t.below == []
  {
    hide TopOk, ParentsOk;
    RunRedo(u, buf, i, u.To(Finish));
  }

  /** With an explicit length, the text of a string, an array or an object is complete
      at its last character. */
  lemma RoundTripLength(t: Tok, v: JValue, f: Flags)
    requires Ready(t) && Printable(v) && Fits(v, t.cfg.maxDepth - 1) && Bracketed(v)
    ensures var r := ParseEx(t, Text(v, 0, f));
            r.err == Success && r.value == v && r.off == |Text(v, 0, f)|
  {
    hide StepOk, Plain, TopOk, ParentsOk, StateRank, Text, Micro;
    var text := Text(v, 0, f);
    var u := ParseValue(StartCall(t), text, 0, v, 0, f);
  }
}
