/** Every text of the grammar within the depth is parsed to what it means. */
module GrammarParse {
  import opened Decimals
  import opened JsonValue
  import opened Sequences
  import opened Tokener
  import opened Grammar
  import opened RoundTrip
  import opened GrammarStrings

  // ------------------------------------------------------------ numbers

  /** k characters of the number text s have been read. */
  ghost predicate InNumeral(t: Tok, s: string, k: nat) {
    && t.top.state == Number && k <= |s| && t.pb == s[..k] && t.caseLen == k
    && (t.dbl <==> Fractional(s[..k])) && (t.isExp <==> HasExp(s[..k]))
    && t.negPos <= k + 1 && (t.negPos == k + 1 <==> k == 0 || IsExp(s[k - 1]))
  }

  /** The tokener takes exactly the characters that fit. */
  lemma NumeralChar(t: Tok, s: string, k: nat)
    requires InNumeral(t, s, k) && k < |s| && IsNumberChar(s[k])
    ensures k > 0 ==> (BadNumberChar(t, s[k]) <==> !CharFits(s, k))
    ensures k == 0 && (IsDigit(s[k]) || s[k] == '-') ==> !BadNumberChar(t, s[k])
    ensures InNumeral(AfterNumberChar(t, s[k]), s, k + 1)
  {
    assert s[..k + 1] == s[..k] + [s[k]];
  }

  lemma FitsIsNumber(s: string, k: nat)
    requires NumeralShape(s) && k < |s|
    ensures IsNumberChar(s[k]) && s[k] != '\0'
    ensures if k == 0 then IsDigit(s[0]) || s[0] == '-' else CharFits(s, k)
  {
    if k > 0 { assert CharFits(s, k); }
  }

  lemma {:induction false} RunNumeral(t: Tok, buf: string, i: nat, s: string, k: nat) returns (u: Tok)
    requires Wf(t) && InNumeral(t, s, k) && NumeralShape(s) && At(buf, i, s[k..])
    ensures Wf(u) && InNumeral(u, s, |s|) && u.cfg == t.cfg && u.below == t.below && u.top == t.top
    ensures Run(t, buf, i) == Run(u, buf, i + |s| - k)
    decreases |s| - k
  {
    hide Run, StepOk, Plain, TopOk, ParentsOk, StateRank, NumeralShape, InNumeral, BadNumberChar, IsNumberChar;
    NumeralState(t, s, k);
    if k == |s| {
      u := t;
    } else {
      NextChar(buf, i, s, k);
      FitsIsNumber(s, k);
      NumeralChar(t, s, k);
      var t1 := AfterNumberChar(t, s[k]);
      RunNext(t, buf, i, t1, 1);
      u := RunNumeral(t1, buf, i + 1, s, k + 1);
    }
  }

  /** One character of a text that is being read. */
  lemma NextChar(buf: string, i: nat, s: string, k: nat)
    requires k < |s| && At(buf, i, s[k..])
    ensures i < |buf| && buf[i] == s[k] && At(buf, i + 1, s[k + 1..])
  {
    AtChars(buf, i, s[k..], 0);
    assert s[k..] == [s[k]] + s[k + 1..];
    AtSplit(buf, i, [s[k]], s[k + 1..]);
  }

  lemma NumeralState(t: Tok, s: string, k: nat)
    requires InNumeral(t, s, k)
    ensures t.top.state == Number && t.pb == s[..k] && k <= |s|
  {
  }

  /** The tokener and the grammar agree on complete numbers. */
  lemma NumeralEnd(t: Tok, s: string)
    requires InNumeral(t, s, |s|) && NumeralShape(s)
    ensures LegalNumeral(s, t.cfg) ==> NumberValue(t) == Some(NumeralValue(s))
    ensures NumberValue(t).Some? ==> LegalNumeral(s, t.cfg)
  {
    hide NumeralShape, HasExp, CharFits;
    assert s[..|s|] == s;
  }

  lemma EnterNumber(t: Tok, buf: string, i: nat) returns (u: Tok)
    requires Wf(t) && t.top == RESET_LEVEL && i < |buf| && (IsDigit(buf[i]) || buf[i] == '-')
    ensures Wf(u) && u.top == RESET_LEVEL.(state := Number) && u.cfg == t.cfg && u.below == t.below
    ensures forall s :: InNumeral(u, s, 0)
    ensures Run(t, buf, i) == Run(u, buf, i)
  {
    hide Run, StepOk, Plain, TopOk, ParentsOk, StateRank;
    var t1 := t.To(Start);
    RunRedo(t, buf, i, t1);
    u := t1.(pb := "", dbl := false, caseLen := 0, isExp := false, negPos := 1).To(Number);
    RunRedo(t1, buf, i, u);
  }

  lemma NumeralMore(t: Tok, s: string, c: char)
    requires InNumeral(t, s, |s|) && LegalNumeral(s, t.cfg)
    ensures !MinusInf(t, c)
  {
    hide NumeralShape;
    assert s[..|s|] == s;
  }

  lemma ParseNumeral(t: Tok, buf: string, i: nat, s: string) returns (u: Tok)
    requires Wf(t) && t.top == RESET_LEVEL && LegalNumeral(s, t.cfg)
    requires At(buf, i, s) && i + |s| < |buf| && !IsNumberChar(buf[i + |s|])
    ensures Done(t, u, NumeralValue(s)) && Run(t, buf, i) == Run(u, buf, i + |s|)
  {
    hide Run, Micro, StepOk, Plain, TopOk, ParentsOk, StateRank, NumeralShape, InNumeral, NumberValue, NumeralValue, IsNumberChar, MinusInf;
    FitsIsNumber(s, 0);
    AtChars(buf, i, s, 0);
    var t1 := EnterNumber(t, buf, i);
    assert s[0..] == s;
    var t2 := RunNumeral(t1, buf, i, s, 0);
    NumeralState(t2, s, |s|);
    NumeralEnd(t2, s);
    NumeralMore(t2, s, buf[i + |s|]);
    NumberCase(t2, buf, i + |s|);
    u := t2.Value(NumeralValue(s));
    RunRedo(t2, buf, i + |s|, u);
  }

  lemma NumberCase(t: Tok, buf: string, i: nat)
    requires Wf(t) && t.top.state == Number && i < |buf|
    ensures Micro(t, buf, i) == StepNumber(t, buf[i])
  {
    hide StepOk, Plain, TopOk, ParentsOk, StateRank, StepNumber;
  }

  // ------------------------------------------------------------ words

  /** The same text, up to the case of letters if fold. */
  predicate Same(a: string, b: string, fold: bool) { if fold then Fold(a) == Fold(b) else a == b }

  lemma MatchesIs(word: string, n: nat, pb: string, fold: bool)
    requires n <= |word| && n <= |pb|
    ensures Matches(word, n, pb, fold) <==> Same(pb[..n], word[..n], fold)
  {
    var (a, b) := (pb[..n], word[..n]);
    if Matches(word, n, pb, fold) {
      forall i | 0 <= i < n ensures fold ==> Fold(a)[i] == Fold(b)[i] {
        assert pb[i] == word[i] || (fold && Lower(pb[i]) == Lower(word[i]));
      }
    }
    if Same(a, b, fold) {
      forall i | 0 <= i < n ensures pb[i] == word[i] || (fold && Lower(pb[i]) == Lower(word[i])) {
        assert a[i] == pb[i] && b[i] == word[i];
        assert fold ==> Fold(a)[i] == Fold(b)[i];
      }
    }
  }

  lemma SamePrefix(a: string, b: string, n: nat, fold: bool)
    requires Same(a, b, fold) && n <= |a|
    ensures |a| == |b| && Same(a[..n], b[..n], fold)
  {
    if fold { assert |Fold(a)| == |Fold(b)| && Fold(a)[..n] == Fold(a[..n]) && Fold(b)[..n] == Fold(b[..n]); }
  }

  /** Words that start differently are different. */
  lemma DifferentAt(a: string, b: string, n: nat, k: nat, fold: bool)
    requires k < n <= |a| && n <= |b| && Small(a[k]) != Small(b[k])
    ensures !Same(a[..n], b[..n], fold)
  {
    assert Fold(a[..n])[k] == Small(a[k]) && Fold(b[..n])[k] == Small(b[k]) && a[..n][k] == a[k] && b[..n][k] == b[k];
  }

  const NAN := "NaN"
  const INFINITY := "Infinity"

  /** How a word is written, and the state that reads it. */
  predicate Spells(w: string, word: string, strict: bool) {
    (word == "null" || word == NAN || word == "true" || word == "false") && Same(w, word, !strict)
  }

  function WordStateOf(word: string): State { if word == "null" || word == NAN then Null else Boolean }

  function SpelledValue(word: string): JValue {
    if word == "null" then JNull else if word == NAN then JDouble("NaN") else JBool(word == "true")
  }

  /** j letters of the word w have been read. */
  ghost predicate InSpelling(t: Tok, w: string, word: string, j: nat) {
    Spells(w, word, t.cfg.strict) && j <= |w| && t.top.state == WordStateOf(word) && t.stPos == j && t.pb == w[..j]
  }

  /** What has been read together with c, compared with the first n letters of some word. */
  lemma PrefixMatches(t: Tok, w: string, word: string, j: nat, c: char)
    requires InSpelling(t, w, word, j) && (j < |w| ==> c == w[j])
    ensures |w| == |word| && Matches(word, Min(j + 1, |word|), t.pb + [c], !t.cfg.strict)
  {
    var (n, pb, fold) := (Min(j + 1, |w|), t.pb + [c], !t.cfg.strict);
    hide Same, Matches;
    SamePrefix(w, word, n, fold);
    OneLetter(w, j, c);
    MatchesIs(word, n, pb, fold);
  }

  lemma OneLetter(w: string, j: nat, c: char)
    requires j <= |w| && (j < |w| ==> c == w[j])
    ensures (w[..j] + [c])[..Min(j + 1, |w|)] == w[..Min(j + 1, |w|)]
  {
  }

  lemma OtherWordFails(t: Tok, w: string, word: string, j: nat, c: char, other: string, k: nat)
    requires InSpelling(t, w, word, j) && (j < |w| ==> c == w[j]) && |w| == |word|
    requires k < |word| && k < |other| && k <= j && Small(word[k]) != Small(other[k])
    ensures !Matches(other, Min(j + 1, |other|), t.pb + [c], !t.cfg.strict)
  {
    var (n, pb, fold) := (Min(j + 1, |other|), t.pb + [c], !t.cfg.strict);
    SamePrefix(w, word, |w|, fold);
    assert w[..|w|] == w && word[..|w|] == word;
    SmallSame(w, word, k, fold);
    assert pb[k] == w[k];
    if n <= |pb| {
      DifferentAt(pb, other, n, k, fold);
      MatchesIs(other, n, pb, fold);
    }
  }

  lemma SmallSame(a: string, b: string, k: nat, fold: bool)
    requires Same(a, b, fold) && k < |a| && |a| == |b|
    ensures Small(a[k]) == Small(b[k])
  {
    if fold { assert Fold(a)[k] == Fold(b)[k]; }
  }

  lemma SpellingStep(t: Tok, w: string, word: string, j: nat, c: char)
    requires Wf(t) && InSpelling(t, w, word, j) && (j < |w| ==> c == w[j])
    ensures |w| == |word|
    ensures (if WordStateOf(word) == Null then StepNull(t, c) else StepBoolean(t, c)) ==
            if j < |w| then Next(t.(pb := w[..j + 1], stPos := j + 1), 1)
            else Redo(t.Append([c]).Value(SpelledValue(word)))
  {
    hide StepOk, Plain, TopOk, ParentsOk, StateRank, Matches, Same;
    PrefixMatches(t, w, word, j, c);
    assert j < |w| ==> t.pb + [c] == w[..j + 1];
    if word == NAN && j > 0 {
      OtherWordFails(t, w, word, j, c, "null", 1);
    } else if word == NAN && t.cfg.strict {
      SpellingFirst(w, word, true);
      NotN(t.pb + [c]);
    } else if word == "false" {
      OtherWordFails(t, w, word, j, c, "true", 0);
    }
  }

  lemma NotN(pb: string)
    requires pb != "" && pb[0] == 'N'
    ensures !Matches("null", 1, pb, false)
  {
  }

  lemma SpellingFirst(w: string, word: string, strict: bool)
    requires Spells(w, word, strict)
    ensures |w| == |word| && Small(w[0]) == Small(word[0])
    ensures strict ==> w == word
  {
    SamePrefix(w, word, 0, !strict);
    SmallSame(w, word, 0, !strict);
  }

  lemma {:induction false} RunSpelling(t: Tok, buf: string, i: nat, w: string, word: string, j: nat) returns (u: Tok)
    requires Wf(t) && InSpelling(t, w, word, j) && At(buf, i, w[j..]) && i + |w| - j < |buf|
    ensures Wf(u) && u.cfg == t.cfg && u.below == t.below
    ensures u.top == t.top.(state := EatWs, saved := Finish, current := SpelledValue(word))
    ensures Run(t, buf, i) == Run(u, buf, i + |w| - j)
    decreases |w| - j
  {
    hide Run, Micro, StepOk, Plain, TopOk, ParentsOk, StateRank, StepNull, StepBoolean, At, Same;
    WordCases(t, buf, i);
    if j < |w| {
      NextChar(buf, i, w, j);
      SpellingStep(t, w, word, j, w[j]);
      LetterNotNul(w, word, j, t.cfg.strict);
      var t1 := t.(pb := w[..j + 1], stPos := j + 1);
      RunNext(t, buf, i, t1, 1);
      u := RunSpelling(t1, buf, i + 1, w, word, j + 1);
    } else {
      SpellingStep(t, w, word, j, buf[i]);
      u := t.Append([buf[i]]).Value(SpelledValue(word));
      RunRedo(t, buf, i, u);
    }
  }

  lemma LetterNotNul(w: string, word: string, j: nat, strict: bool)
    requires Spells(w, word, strict) && j < |w|
    ensures w[j] != '\0'
  {
    SamePrefix(w, word, |w|, !strict);
    SmallSame(w, word, j, !strict);
  }

  lemma WordCases(t: Tok, buf: string, i: nat)
    requires Wf(t) && i < |buf|
    ensures t.top.state == Null ==> Micro(t, buf, i) == StepNull(t, buf[i])
    ensures t.top.state == Boolean ==> Micro(t, buf, i) == StepBoolean(t, buf[i])
    ensures t.top.state == Inf ==> Micro(t, buf, i) == StepInf(t, buf[i])
  {
    hide StepOk, Plain, TopOk, ParentsOk, StateRank, StepNull, StepBoolean, StepInf;
  }

  lemma ParseSpelling(t: Tok, buf: string, i: nat, w: string, word: string) returns (u: Tok)
    requires Wf(t) && t.top == RESET_LEVEL && Spells(w, word, t.cfg.strict) && At(buf, i, w) && i + |w| < |buf|
    ensures Done(t, u, SpelledValue(word)) && Run(t, buf, i) == Run(u, buf, i + |w|)
  {
    hide Run, StepOk, Plain, TopOk, ParentsOk, StateRank, Same;
    SpellingFirst(w, word, t.cfg.strict);
    AtChars(buf, i, w, 0);
    var t1 := t.To(Start);
    RunRedo(t, buf, i, t1);
    var t2 := t1.(pb := "", stPos := 0).To(WordStateOf(word));
    RunRedo(t1, buf, i, t2);
    assert w[0..] == w && w[..0] == "";
    u := RunSpelling(t2, buf, i, w, word, 0);
  }

  lemma InfLetter(t: Tok, w: string)
    requires Wf(t) && t.top.state == Inf && t.stPos < 8 == |w| && Same(w, INFINITY, !t.cfg.strict)
    ensures StepInf(t, w[t.stPos]) == Next(t.(stPos := t.stPos + 1), 1) && w[t.stPos] != '\0'
  {
    hide StepOk, Plain, TopOk, ParentsOk, StateRank;
    SmallSame(w, INFINITY, t.stPos, !t.cfg.strict);
    assert InfWord(false)[t.stPos] == Small(INFINITY[t.stPos]);
  }

  lemma InfEnd(t: Tok, c: char)
    requires Wf(t) && t.top.state == Inf && t.stPos == 8
    ensures StepInf(t, c) == Redo(t.Value(InfValue(t.pb)))
  {
    hide StepOk, Plain, TopOk, ParentsOk, StateRank;
  }

  function InfValue(pb: string): JValue { JDouble(if |pb| > 0 && pb[0] == '-' then "-Infinity" else "Infinity") }

  lemma {:induction false} RunInf(t: Tok, buf: string, i: nat, w: string, j: nat) returns (u: Tok)
    requires Wf(t) && t.top.state == Inf && t.stPos == j <= 8 == |w| && Same(w, INFINITY, !t.cfg.strict)
    requires At(buf, i, w[j..]) && i + 8 - j < |buf|
    ensures Wf(u) && u.cfg == t.cfg && u.below == t.below
    ensures u.top == t.top.(state := EatWs, saved := Finish, current := InfValue(t.pb))
    ensures Run(t, buf, i) == Run(u, buf, i + 8 - j)
    decreases 8 - j
  {
    hide Run, Micro, StepOk, Plain, TopOk, ParentsOk, StateRank, StepInf, At, InfValue, Same;
    WordCases(t, buf, i);
    if j < 8 {
      NextChar(buf, i, w, j);
      InfLetter(t, w);
      var t1 := t.(stPos := j + 1);
      RunNext(t, buf, i, t1, 1);
      u := RunInf(t1, buf, i + 1, w, j + 1);
    } else {
      InfEnd(t, buf[i]);
      u := t.Value(InfValue(t.pb));
      RunRedo(t, buf, i, u);
    }
  }

  lemma ParseInfinity(t: Tok, buf: string, i: nat, w: string) returns (u: Tok)
    requires Wf(t) && t.top == RESET_LEVEL && |w| == 8 && Same(w, INFINITY, !t.cfg.strict) && At(buf, i, w) && i + 8 < |buf|
    ensures Done(t, u, JDouble("Infinity")) && Run(t, buf, i) == Run(u, buf, i + 8)
  {
    hide Run, StepOk, Plain, TopOk, ParentsOk, StateRank, Same;
    AtChars(buf, i, w, 0);
    SmallSame(w, INFINITY, 0, !t.cfg.strict);
    var t1 := t.To(Start);
    RunRedo(t, buf, i, t1);
    var t2 := t1.(pb := "", stPos := 0).To(Inf);
    RunRedo(t1, buf, i, t2);
    assert w[0..] == w;
    u := RunInf(t2, buf, i, w, 0);
  }

  lemma ParseMinusInfinity(t: Tok, buf: string, i: nat, w: string) returns (u: Tok)
    requires Wf(t) && t.top == RESET_LEVEL && |w| == 8 && Same(w, INFINITY, !t.cfg.strict) && At(buf, i, "-" + w) && i + 9 < |buf|
    ensures Done(t, u, JDouble("-Infinity")) && Run(t, buf, i) == Run(u, buf, i + 9)
  {
    hide Run, StepOk, Plain, TopOk, ParentsOk, StateRank, InNumeral, Same;
    AtSplit(buf, i, "-", w);
    AtChars(buf, i, "-", 0);
    AtChars(buf, i + 1, w, 0);
    SmallSame(w, INFINITY, 0, !t.cfg.strict);
    var t1 := EnterNumber(t, buf, i);
    var t2 := MinusThenI(t1, buf, i);
    assert w[0..] == w;
    u := RunInf(t2, buf, i + 1, w, 0);
  }

  lemma MinusThenI(t: Tok, buf: string, i: nat) returns (u: Tok)
    requires Wf(t) && InNumeral(t, "-", 0) && i + 1 < |buf| && buf[i] == '-' && (buf[i + 1] == 'I' || buf[i + 1] == 'i')
    ensures Wf(u) && u.top == t.top.(state := Inf) && u.cfg == t.cfg && u.below == t.below && u.stPos == 0 && u.pb == "-"
    ensures Run(t, buf, i) == Run(u, buf, i + 1)
  {
    hide Run, StepOk, Plain, TopOk, ParentsOk, StateRank, NumberValue;
    assert t.pb + ['-'] == "-";
    var t1 := AfterNumberChar(t, '-');
    RunNext(t, buf, i, t1, 1);
    u := t1.(stPos := 0).To(Inf);
    RunRedo(t1, buf, i + 1, u);
  }

  /** The word that a legal one spells. */
  function Spelled(w: string): string {
    var f := Fold(w);
    if f == "nan" then NAN else if f == "infinity" then INFINITY else if f == "-infinity" then "-Infinity" else f
  }

  lemma FoldWords()
    ensures Fold("null") == "null" && Fold("true") == "true" && Fold("false") == "false" && Fold(NAN) == "nan"
    ensures Fold(INFINITY) == "infinity" && Fold("-Infinity") == "-infinity"
  {
  }

  lemma LegalSpells(w: string, strict: bool)
    requires LegalWord(w, strict)
    ensures Same(w, Spelled(w), !strict)
    ensures Spells(w, Spelled(w), strict) || Spelled(w) == INFINITY || Spelled(w) == "-Infinity"
    ensures WordValue(w) == if Spelled(w) == INFINITY || Spelled(w) == "-Infinity" then JDouble(Spelled(w)) else SpelledValue(Spelled(w))
  {
    FoldWords();
    hide Fold;
  }

  lemma MinusSplit(w: string, strict: bool)
    requires Same(w, "-Infinity", !strict)
    ensures |w| == 9 && w == "-" + w[1..] && Same(w[1..], INFINITY, !strict)
  {
    SamePrefix(w, "-Infinity", |w|, !strict);
    SmallSame(w, "-Infinity", 0, !strict);
    if !strict {
      forall k | 0 <= k < 8 ensures Fold(w[1..])[k] == Fold(INFINITY)[k] {
        SmallSame(w, "-Infinity", k + 1, true);
        assert "-Infinity"[k + 1] == INFINITY[k];
      }
      assert Fold(w[1..]) == Fold(INFINITY);
    }
    assert "-Infinity"[1..] == INFINITY;
  }

  lemma ParseWord(t: Tok, buf: string, i: nat, w: string) returns (u: Tok)
    requires Wf(t) && t.top == RESET_LEVEL && LegalWord(w, t.cfg.strict) && At(buf, i, w) && i + |w| < |buf|
    ensures Done(t, u, WordValue(w)) && Run(t, buf, i) == Run(u, buf, i + |w|)
  {
    hide Run, Wf, At, Same, LegalWord, WordValue, Fold, Spelled, Done;
    LegalSpells(w, t.cfg.strict);
    var word := Spelled(w);
    if word == INFINITY {
      SamePrefix(w, word, 0, !t.cfg.strict);
      u := ParseInfinity(t, buf, i, w);
    } else if word == "-Infinity" {
      MinusSplit(w, t.cfg.strict);
      u := ParseMinusInfinity(t, buf, i, w[1..]);
    } else {
      u := ParseSpelling(t, buf, i, w, word);
    }
  }

  // ------------------------------------------------------------ between tokens

  /** The print buffer holds the last comment. */
  function PbAfter(pb: string, gap: Gap): string
    decreases |gap|
  {
    if gap == [] then pb
    else
      match gap[0]
      case Ws(_) => PbAfter(pb, gap[1..])
      case Block(body) => PbAfter("/*" + body + "*/", gap[1..])
      case ToEol(body) => PbAfter("//" + body, gap[1..])
  }

  lemma FirstFiller(buf: string, i: nat, gap: Gap, tail: string)
    requires gap != [] && At(buf, i, Filling(gap) + tail)
    ensures At(buf, i, FillerText(gap[0])) && At(buf, i + |FillerText(gap[0])|, Filling(gap[1..]) + tail)
    ensures |Filling(gap)| == |FillerText(gap[0])| + |Filling(gap[1..])|
  {
    hide FillerText;
    assert Filling(gap) + tail == FillerText(gap[0]) + (Filling(gap[1..]) + tail);
    AtSplit(buf, i, FillerText(gap[0]), Filling(gap[1..]) + tail);
  }

  lemma RestLegal(gap: Gap, strict: bool)
    requires gap != [] && LegalGap(gap, strict)
    ensures LegalFiller(gap[0], strict) && LegalGap(gap[1..], strict)
  {
  }

  lemma CommentCases(t: Tok, buf: string, i: nat)
    requires Wf(t) && i < |buf|
    ensures t.top.state == CommentStart ==> Micro(t, buf, i) == StepCommentStart(t, buf[i])
    ensures t.top.state == Comment ==> Micro(t, buf, i) == StepInComment(t, buf[i])
    ensures t.top.state == CommentEnd ==> Micro(t, buf, i) == StepCommentEnd(t, buf[i])
    ensures t.top.state == CommentEol ==> Micro(t, buf, i) == StepCommentEol(t, buf[i])
  {
    hide TopOk, ParentsOk, StateRank, StepOk, Plain, StepCommentStart, StepInComment, StepCommentEnd, StepCommentEol;
  }

  lemma BlockStep(t: Tok, buf: string, i: nat, c: char, star: bool) returns (u: Tok)
    requires Wf(t) && t.top.state == (if star then CommentEnd else Comment) && i < |buf| && buf[i] == c
    requires c != '\0' && !(star && c == '/')
    ensures Wf(u) && u == t.(pb := t.pb + [c]).To(if !star && c == '*' then CommentEnd else Comment)
    ensures Run(t, buf, i) == Run(u, buf, i + 1)
  {
    hide Run, Micro, StepOk, Plain, TopOk, ParentsOk, StateRank;
    CommentCases(t, buf, i);
    u := t.(pb := t.pb + [c]).To(if !star && c == '*' then CommentEnd else Comment);
    RunNext(t, buf, i, u, 1);
  }

  lemma EolStep(t: Tok, buf: string, i: nat, c: char) returns (u: Tok)
    requires Wf(t) && t.top.state == CommentEol && i < |buf| && buf[i] == c && c != '\0'
    ensures Wf(u) && u == (if c == '\n' then t.To(EatWs) else t.(pb := t.pb + [c])) && Run(t, buf, i) == Run(u, buf, i + 1)
  {
    hide Run, Micro, StepOk, Plain, TopOk, ParentsOk, StateRank;
    CommentCases(t, buf, i);
    u := if c == '\n' then t.To(EatWs) else t.(pb := t.pb + [c]);
    RunNext(t, buf, i, u, 1);
  }

  lemma Longer(a: string, b: string)
    requires b != ""
    ensures a + [b[0]] + b[1..] == a + b
  {
  }

  /** The inside of a comment. */
  lemma {:induction false} RunBlock(t: Tok, buf: string, i: nat, body: string, star: bool) returns (u: Tok)
    requires Wf(t) && t.top.state == (if star then CommentEnd else Comment) && InBlock(body, star) && At(buf, i, body)
    ensures Wf(u) && u == t.(pb := t.pb + body).To(Comment) && Run(t, buf, i) == Run(u, buf, i + |body|)
    decreases |body|
  {
    hide Run, Wf, At;
    if body == "" {
      assert t.pb + "" == t.pb;
      u := t;
    } else {
      assert body[0..] == body;
      NextChar(buf, i, body, 0);
      var t1 := BlockStep(t, buf, i, body[0], star);
      u := RunBlock(t1, buf, i + 1, body[1..], !star && body[0] == '*');
      Longer(t.pb, body);
    }
  }

  lemma {:induction false} RunEol(t: Tok, buf: string, i: nat, body: string) returns (u: Tok)
    requires Wf(t) && t.top.state == CommentEol && '\n' !in body && '\0' !in body && At(buf, i, body)
    ensures Wf(u) && u == t.(pb := t.pb + body) && Run(t, buf, i) == Run(u, buf, i + |body|)
    decreases |body|
  {
    hide Run, Wf, At;
    if body == "" {
      assert t.pb + "" == t.pb;
      u := t;
    } else {
      assert body[0..] == body;
      NextChar(buf, i, body, 0);
      var t1 := EolStep(t, buf, i, body[0]);
      u := RunEol(t1, buf, i + 1, body[1..]);
      Longer(t.pb, body);
    }
  }

  /** The two characters that start a comment. */
  lemma OpenComment(t: Tok, buf: string, i: nat, c: char) returns (u: Tok)
    requires Wf(t) && t.top.state == EatWs && !t.cfg.strict && At(buf, i, ['/', c]) && (c == '*' || c == '/')
    ensures Wf(u) && u == t.(pb := ['/', c]).To(if c == '*' then Comment else CommentEol)
    ensures Run(t, buf, i) == Run(u, buf, i + 2)
  {
    hide Run, StepOk, Plain, TopOk, ParentsOk, StateRank;
    AtChars(buf, i, ['/', c], 0);
    AtChars(buf, i, ['/', c], 1);
    var t1 := t.(pb := ['/']).To(CommentStart);
    RunNext(t, buf, i, t1, 1);
    u := t1.Append([c]).To(if c == '*' then Comment else CommentEol);
    CommentCases(t1, buf, i + 1);
    RunNext(t1, buf, i + 1, u, 1);
    assert ['/'] + [c] == ['/', c];
  }

  /** The star and the slash that end one. */
  lemma CloseBlock(t: Tok, buf: string, i: nat) returns (u: Tok)
    requires Wf(t) && t.top.state == Comment && At(buf, i, "*/")
    ensures Wf(u) && u == t.(pb := t.pb + "*/").To(EatWs) && Run(t, buf, i) == Run(u, buf, i + 2)
  {
    hide Run, StepOk, Plain, TopOk, ParentsOk, StateRank;
    AtChars(buf, i, "*/", 0);
    AtChars(buf, i, "*/", 1);
    var t1 := t.Append("*").To(CommentEnd);
    CommentCases(t, buf, i);
    RunNext(t, buf, i, t1, 1);
    u := t1.Append("/").To(EatWs);
    CommentCases(t1, buf, i + 1);
    RunNext(t1, buf, i + 1, u, 1);
    assert t.pb + "*" + "/" == t.pb + "*/";
  }

  lemma SkipBlock(t: Tok, buf: string, i: nat, body: string) returns (u: Tok)
    requires Wf(t) && t.top.state == EatWs && LegalFiller(Block(body), t.cfg.strict) && At(buf, i, FillerText(Block(body)))
    ensures Wf(u) && u == t.(pb := "/*" + body + "*/") && Run(t, buf, i) == Run(u, buf, i + |FillerText(Block(body))|)
  {
    hide Run, Wf, At, InBlock;
    AtSplit(buf, i, "/*", body + "*/");
    AtSplit(buf, i + 2, body, "*/");
    assert "/*" == ['/', '*'];
    var t1 := OpenComment(t, buf, i, '*');
    var t2 := RunBlock(t1, buf, i + 2, body, false);
    u := CloseBlock(t2, buf, i + 2 + |body|);
  }

  lemma SkipEol(t: Tok, buf: string, i: nat, body: string) returns (u: Tok)
    requires Wf(t) && t.top.state == EatWs && LegalFiller(ToEol(body), t.cfg.strict) && At(buf, i, FillerText(ToEol(body)))
    ensures Wf(u) && u == t.(pb := "//" + body) && Run(t, buf, i) == Run(u, buf, i + |FillerText(ToEol(body))|)
  {
    hide Run, Wf, At;
    AtSplit(buf, i, "//", body + "\n");
    AtSplit(buf, i + 2, body, "\n");
    assert "//" == ['/', '/'];
    var t1 := OpenComment(t, buf, i, '/');
    var t2 := RunEol(t1, buf, i + 2, body);
    AtChars(buf, i + 2 + |body|, "\n", 0);
    u := EolStep(t2, buf, i + 2 + |body|, '\n');
  }

  lemma SkipOne(t: Tok, buf: string, i: nat, f: Filler) returns (u: Tok)
    requires Wf(t) && t.top.state == EatWs && LegalFiller(f, t.cfg.strict) && At(buf, i, FillerText(f))
    ensures Wf(u) && u == t.(pb := PbAfter(t.pb, [f])) && Run(t, buf, i) == Run(u, buf, i + |FillerText(f)|)
  {
    hide Run, Wf, At, LegalFiller;
    OnePb(t.pb, f);
    match f
    case Ws(c) =>
      WsIs(c, t.cfg.strict);
      u := t;
      SkipWs(t, buf, i, [c]);
    case Block(body) => u := SkipBlock(t, buf, i, body);
    case ToEol(body) => u := SkipEol(t, buf, i, body);
  }

  lemma WsIs(c: char, strict: bool)
    requires LegalFiller(Ws(c), strict)
    ensures AllWs([c])
  {
  }

  lemma OnePb(pb: string, f: Filler)
    ensures PbAfter(pb, [f]) == match f case Ws(_) => pb case Block(body) => "/*" + body + "*/" case ToEol(body) => "//" + body
  {
    assert [f][1..] == [];
  }

  lemma PbNext(pb: string, gap: Gap)
    requires gap != []
    ensures PbAfter(pb, gap) == PbAfter(PbAfter(pb, [gap[0]]), gap[1..])
  {
    OnePb(pb, gap[0]);
  }

  /** The tokener skips white space and comments. */
  lemma {:induction false} SkipGap(t: Tok, buf: string, i: nat, gap: Gap, tail: string) returns (u: Tok)
    requires Wf(t) && t.top.state == EatWs && LegalGap(gap, t.cfg.strict) && At(buf, i, Filling(gap) + tail)
    ensures Wf(u) && u == t.(pb := PbAfter(t.pb, gap)) && At(buf, i + |Filling(gap)|, tail)
    ensures i + |Filling(gap)| <= |buf| && Run(t, buf, i) == Run(u, buf, i + |Filling(gap)|)
    decreases |gap|
  {
    hide Run, Wf, At, Filling, FillerText, LegalGap, LegalFiller, PbAfter;
    if gap == [] {
      NoFilling(t.pb, tail);
      u := t;
      AtInside(buf, i, tail);
    } else {
      FirstFiller(buf, i, gap, tail);
      RestLegal(gap, t.cfg.strict);
      PbNext(t.pb, gap);
      var t1 := SkipOne(t, buf, i, gap[0]);
      u := SkipGap(t1, buf, i + |FillerText(gap[0])|, gap[1..], tail);
    }
  }

  lemma NoFilling(pb: string, tail: string)
    ensures Filling([]) == "" && PbAfter(pb, []) == pb && "" + tail == tail
  {
  }

  lemma AtInside(buf: string, i: nat, s: string)
    requires At(buf, i, s)
    ensures i + |s| <= |buf|
  {
  }

  // ------------------------------------------------------------ strings and keys

  lemma OpenQuote(t: Tok, buf: string, i: nat) returns (u: Tok)
    requires Wf(t) && t.top == RESET_LEVEL && i < |buf| && (buf[i] == '"' || (buf[i] == '\'' && !t.cfg.strict))
    ensures Wf(u) && u == t.(pb := "", quote := buf[i]).To(Str) && Run(t, buf, i) == Run(u, buf, i + 1)
  {
    hide Run, StepOk, Plain, TopOk, ParentsOk, StateRank;
    var t1 := t.To(Start);
    RunRedo(t, buf, i, t1);
    u := t1.(pb := "", quote := buf[i]).To(Str);
    RunNext(t1, buf, i, u, 1);
  }

  lemma CloseQuote(t: Tok, buf: string, i: nat) returns (u: Tok)
    requires Wf(t) && t.top.state == Str && t.top.field == "" && i < |buf| && buf[i] == t.quote
    ensures Done(t, u, JString(t.pb)) && Run(t, buf, i) == Run(u, buf, i + 1)
  {
    hide Run, Micro, StepOk, Plain, TopOk, ParentsOk, StateRank;
    TextCases(t, buf, i);
    u := t.Value(JString(t.pb));
    RunNext(t, buf, i, u, 1);
  }

  lemma ParseQuote(t: Tok, buf: string, i: nat, quote: char, ps: seq<Part>) returns (u: Tok)
    requires Wf(t) && t.top == RESET_LEVEL && LegalParts(ps, quote) && At(buf, i, [quote] + (PartsText(ps) + [quote]))
    requires quote == '"' || (quote == '\'' && !t.cfg.strict)
    ensures Done(t, u, JString(Chars(ps, 0))) && Run(t, buf, i) == Run(u, buf, i + |PartsText(ps)| + 2)
  {
    hide Run, Wf, PartsText, Chars, LegalParts, At;
    AtSplit(buf, i, [quote], PartsText(ps) + [quote]);
    AtSplit(buf, i + 1, PartsText(ps), [quote]);
    AtChars(buf, i, [quote], 0);
    AtChars(buf, i + 1 + |PartsText(ps)|, [quote], 0);
    var t1 := OpenQuote(t, buf, i);
    var t2 := ParseParts(t1, buf, i + 1, ps);
    NothingBefore(Chars(ps, 0));
    StillText(t, t1, t2, Chars(ps, 0));
    u := CloseQuote(t2, buf, i + 1 + |PartsText(ps)|);
  }

  /** The parts have changed nothing but the print buffer of the level. */
  lemma StillText(t: Tok, t1: Tok, t2: Tok, s: string)
    requires Wf(t) && t.top == RESET_LEVEL && t1 == t.(pb := "", quote := t1.quote).To(Str) && Grown(t1, t2, s)
    ensures t2.cfg == t.cfg && t2.below == t.below && t2.quote == t1.quote && t2.pb == "" + s
    ensures t2.top.state == Str && t2.top.current == JNull && t2.top.field == ""
  {
    hide Wf;
  }

  /** The quote that opens a key. */
  lemma OpenKey(t: Tok, buf: string, i: nat) returns (u: Tok)
    requires Wf(t) && t.top.state == EatWs && (t.top.saved == FieldStart || t.top.saved == FieldStartAfterSep)
    requires i < |buf| && LegalQuote(buf[i])
    ensures Wf(u) && u == t.(pb := "", quote := buf[i]).To(Field) && Run(t, buf, i) == Run(u, buf, i + 1)
  {
    hide Run, StepOk, Plain, TopOk, ParentsOk, StateRank;
    var t1 := t.To(t.top.saved);
    RunRedo(t, buf, i, t1);
    u := t1.(pb := "", quote := buf[i]).To(Field);
    RunNext(t1, buf, i, u, 1);
  }

  /** From the quote of a key to the colon. */
  lemma ParseName(t: Tok, buf: string, i: nat, quote: char, key: seq<Part>, mid: Gap) returns (u: Tok)
    requires Wf(t) && t.top.state == EatWs && (t.top.saved == FieldStart || t.top.saved == FieldStartAfterSep)
    requires LegalQuote(quote) && LegalParts(key, quote) && LegalGap(mid, t.cfg.strict) && At(buf, i, KeyYield(quote, key, mid))
    ensures Wf(u) && u.cfg == t.cfg && u.below == t.below && u.top == Level(EatWs, ObjValue, t.top.current, KeyOf(key))
    ensures Run(t, buf, i) == Run(u, buf, i + |KeyYield(quote, key, mid)|)
  {
    hide Run, Wf, PartsText, Chars, LegalParts, LegalGap, CString, At;
    KeyStands(buf, i, quote, key, mid);
    var t1 := OpenKey(t, buf, i);
    var t2 := ParseParts(t1, buf, i + 1, key);
    NothingBefore(Chars(key, 0));
    u := CloseName(t2, buf, i + 1 + |PartsText(key)|, mid);
  }

  lemma KeyStands(buf: string, i: nat, quote: char, key: seq<Part>, mid: Gap)
    requires At(buf, i, KeyYield(quote, key, mid))
    ensures i < |buf| && buf[i] == quote && At(buf, i + 1, PartsText(key) + [quote])
    ensures At(buf, i + 1 + |PartsText(key)|, [quote] + (Filling(mid) + [':']))
  {
    hide PartsText, Filling;
    var (s, tail) := (PartsText(key), [quote] + (Filling(mid) + [':']));
    AtSplit(buf, i, [quote], s + tail);
    AtChars(buf, i, [quote], 0);
    assert s + tail == s + [quote] + (Filling(mid) + [':']);
    AtSplit(buf, i + 1, s + [quote], Filling(mid) + [':']);
    AtSplit(buf, i + 1, s, tail);
  }

  /** The closing quote of a key. */
  lemma CloseKey(t: Tok, buf: string, i: nat) returns (u: Tok)
    requires Wf(t) && t.top.state == Field && i < |buf| && buf[i] == t.quote
    ensures Wf(u) && u == t.(top := t.top.(state := EatWs, saved := FieldEnd, field := CString(t.pb)))
    ensures Run(t, buf, i) == Run(u, buf, i + 1)
  {
    hide Run, Micro, StepOk, Plain, ParentsOk, StateRank, CString;
    TextCases(t, buf, i);
    u := t.(top := t.top.(state := EatWs, saved := FieldEnd, field := CString(t.pb)));
    RunNext(t, buf, i, u, 1);
  }

  lemma ReadColon(t: Tok, buf: string, i: nat) returns (u: Tok)
    requires Wf(t) && t.top.state == EatWs && t.top.saved == FieldEnd && i < |buf| && buf[i] == ':'
    ensures Wf(u) && u == t.(top := t.top.(saved := ObjValue)) && Run(t, buf, i) == Run(u, buf, i + 1)
  {
    hide Run, StepOk, Plain, ParentsOk, StateRank, TopOk;
    var t1 := t.To(FieldEnd);
    RunRedo(t, buf, i, t1);
    u := t1.WsThen(ObjValue);
    RunNext(t1, buf, i, u, 1);
  }

  /** From the closing quote of a key to the colon. */
  lemma CloseName(t: Tok, buf: string, i: nat, mid: Gap) returns (u: Tok)
    requires Wf(t) && t.top.state == Field && LegalGap(mid, t.cfg.strict) && At(buf, i, [t.quote] + (Filling(mid) + [':']))
    ensures Wf(u) && u.cfg == t.cfg && u.below == t.below && u.top == Level(EatWs, ObjValue, t.top.current, CString(t.pb))
    ensures Run(t, buf, i) == Run(u, buf, i + 1 + |Filling(mid)| + 1)
  {
    hide Run, Wf, CString, LegalGap, At, Filling;
    AtSplit(buf, i, [t.quote], Filling(mid) + [':']);
    AtChars(buf, i, [t.quote], 0);
    var t1 := CloseKey(t, buf, i);
    var t2 := SkipGap(t1, buf, i + 1, mid, [':']);
    AtChars(buf, i + 1 + |Filling(mid)|, [':'], 0);
    u := ReadColon(t2, buf, i + 1 + |Filling(mid)|);
  }

  // ------------------------------------------------------------ values

  /** Only words and numbers need the next character to know that they are complete. */
  predicate EndsItself(n: Node) { n.Quote? || n.List? || n.Dict? }

  predicate EndIsSeen(n: Node, buf: string, j: nat) {
    EndsItself(n) || (j < |buf| && (n.Word? || !IsNumberChar(buf[j])))
  }

  lemma NodeStart(n: Node, cfg: Config)
    requires Legal(n, cfg)
    ensures Yield(n) != "" && !IsSpace(Yield(n)[0]) && Yield(n)[0] != '/' && Yield(n)[0] != ']'
  {
    hide PartsText, ItemsYield, EntriesYield, LegalParts, LegalItems, LegalEntries, LegalWord;
    if n.Numeral? { FitsIsNumber(n.s, 0); }
    if n.Word? { WordStart(n.w, cfg.strict); }
  }

  lemma WordStart(w: string, strict: bool)
    requires LegalWord(w, strict)
    ensures w != "" && !IsSpace(w[0]) && w[0] != '/' && w[0] != ']'
  {
    LegalSpells(w, strict);
    SamePrefix(w, Spelled(w), 0, !strict);
    SmallSame(w, Spelled(w), 0, !strict);
  }

  lemma ItemsSplit(items: Items, first: bool)
    requires items.Item?
    ensures ItemsYield(items, first) + [']']
            == Comma(items.gap, first) + (Filling(items.before) + (Yield(items.node) + (ItemsYield(items.rest, false) + [']'])))
    ensures |ItemsYield(items, first)|
            == |Comma(items.gap, first)| + |Filling(items.before)| + |Yield(items.node)| + |ItemsYield(items.rest, false)|
  {
    hide Yield, Comma, Filling;
    var (a, b, c, d) := (Comma(items.gap, first), Filling(items.before), Yield(items.node), ItemsYield(items.rest, false));
    assert a + (b + (c + d)) + [']'] == a + (b + (c + (d + [']'])));
  }

  lemma EntriesSplit(e: Entries, first: bool)
    requires e.Entry?
    ensures EntriesYield(e, first) + ['}']
            == Comma(e.gap, first) + (Filling(e.before) + (KeyYield(e.quote, e.key, e.mid)
               + (Filling(e.after) + (Yield(e.node) + (EntriesYield(e.rest, false) + ['}'])))))
    ensures |EntriesYield(e, first)|
            == |Comma(e.gap, first)| + |Filling(e.before)| + |KeyYield(e.quote, e.key, e.mid)| + |Filling(e.after)| + |Yield(e.node)|
               + |EntriesYield(e.rest, false)|
  {
    hide Yield, Comma, KeyYield, Filling;
    var (a, b, c) := (Comma(e.gap, first), Filling(e.before), KeyYield(e.quote, e.key, e.mid));
    var (d, f, g) := (Filling(e.after), Yield(e.node), EntriesYield(e.rest, false));
    assert a + (b + (c + (d + (f + g)))) + ['}'] == a + (b + (c + (d + (f + (g + ['}'])))));
  }

  /** What stands behind a child: filling, then a comma or the closing bracket. */
  ghost predicate Separated(tail: string, gap: Gap, rest: string, close: char) {
    tail == Filling(gap) + rest && rest != "" && (rest[0] == ',' || rest[0] == close)
  }

  lemma ItemsSeparate(items: Items, cfg: Config) returns (gap: Gap, rest: string)
    requires LegalItems(items, false, cfg)
    ensures Separated(ItemsYield(items, false) + [']'], gap, rest, ']') && LegalGap(gap, cfg.strict)
  {
    hide Yield, Filling;
    match items
    case Last(pad) => gap, rest := pad, [']'];
    case Trailing(g, pad) =>
      gap, rest := g, [','] + (Filling(pad) + [']']);
      Regroup3(Filling(g), [','], Filling(pad), [']']);
    case Item(g, before, n, more) =>
      ItemsSplit(items, false);
      gap, rest := g, [','] + (Filling(before) + (Yield(n) + (ItemsYield(more, false) + [']'])));
      Regroup2(Filling(g), [','], Filling(before) + (Yield(n) + (ItemsYield(more, false) + [']'])));
  }

  lemma Regroup3(a: string, b: string, c: string, d: string)
    ensures a + b + c + d == a + (b + (c + d))
  {
  }

  lemma Regroup2(a: string, b: string, c: string)
    ensures a + b + c == a + (b + c)
  {
  }

  lemma EntriesSeparate(e: Entries, cfg: Config) returns (gap: Gap, rest: string)
    requires LegalEntries(e, false, cfg)
    ensures Separated(EntriesYield(e, false) + ['}'], gap, rest, '}') && LegalGap(gap, cfg.strict)
  {
    hide Yield, KeyYield, Filling;
    match e
    case Stop(pad) => gap, rest := pad, ['}'];
    case Loose(g, pad) =>
      gap, rest := g, [','] + (Filling(pad) + ['}']);
      Regroup3(Filling(g), [','], Filling(pad), ['}']);
    case Entry(g, before, quote, key, mid, after, n, more) =>
      EntriesSplit(e, false);
      var inner := Filling(before) + (KeyYield(quote, key, mid) + (Filling(after) + (Yield(n) + (EntriesYield(more, false) + ['}']))));
      gap, rest := g, [','] + inner;
      Regroup2(Filling(g), [','], inner);
  }

  /** The separator itself is reached, and what stands right behind the child ends a number. */
  lemma SeparatorStands(buf: string, i: nat, tail: string, gap: Gap, rest: string, close: char, strict: bool)
    requires At(buf, i, tail) && Separated(tail, gap, rest, close) && LegalGap(gap, strict) && (close == ']' || close == '}')
    ensures i < |buf| && !IsNumberChar(buf[i])
    ensures At(buf, i, Filling(gap) + rest) && var j := i + |Filling(gap)|; j < |buf| && buf[j] == rest[0]
  {
    AtChars(buf, i, tail, 0);
    AtChars(buf, i, tail, |Filling(gap)|);
    if gap != [] { FillerStart(gap[0], strict); }
  }

  lemma FillerStart(f: Filler, strict: bool)
    requires LegalFiller(f, strict)
    ensures !IsNumberChar(FillerText(f)[0])
  {
  }

  lemma ReadComma(t: Tok, buf: string, i: nat) returns (u: Tok)
    requires Wf(t) && t.top.state == EatWs && (t.top.saved == ArraySep || t.top.saved == ObjSep) && i < |buf| && buf[i] == ','
    ensures Wf(u) && u == t.(top := t.top.(saved := if t.top.saved == ArraySep then ArrayAfterSep else FieldStartAfterSep))
    ensures Run(t, buf, i) == Run(u, buf, i + 1)
  {
    hide Run, StepOk, Plain, ParentsOk, StateRank, TopOk;
    var t1 := t.To(t.top.saved);
    RunRedo(t, buf, i, t1);
    u := t1.WsThen(if t.top.saved == ArraySep then ArrayAfterSep else FieldStartAfterSep);
    RunNext(t1, buf, i, u, 1);
  }

  /** The comma between two children, and what stands before it. */
  lemma PassComma(t: Tok, buf: string, i: nat, gap: Gap, tail: string) returns (u: Tok)
    requires Wf(t) && t.top.state == EatWs && (t.top.saved == ArraySep || t.top.saved == ObjSep)
    requires LegalGap(gap, t.cfg.strict) && At(buf, i, Comma(gap, false) + tail)
    ensures Wf(u) && u.cfg == t.cfg && u.below == t.below
    ensures u.top == t.top.(saved := if t.top.saved == ArraySep then ArrayAfterSep else FieldStartAfterSep)
    ensures At(buf, i + |Comma(gap, false)|, tail) && Run(t, buf, i) == Run(u, buf, i + |Comma(gap, false)|)
  {
    hide Run, Wf, LegalGap, At, Filling;
    Regroup2(Filling(gap), [','], tail);
    var t1 := SkipGap(t, buf, i, gap, [','] + tail);
    AtSplit(buf, i + |Filling(gap)|, [','], tail);
    AtChars(buf, i + |Filling(gap)|, [','], 0);
    u := ReadComma(t1, buf, i + |Filling(gap)|);
  }

  /** The comma between two children, and what stands around it. */
  lemma ParseComma(t: Tok, buf: string, i: nat, gap: Gap, first: bool, before: Gap, tail: string) returns (u: Tok)
    requires Wf(t) && t.top.state == EatWs && LegalGap(gap, t.cfg.strict) && LegalGap(before, t.cfg.strict)
    requires At(buf, i, Comma(gap, first) + (Filling(before) + tail))
    requires if first then t.top.saved == Array || t.top.saved == FieldStart else t.top.saved == ArraySep || t.top.saved == ObjSep
    ensures Wf(u) && u.cfg == t.cfg && u.below == t.below
    ensures u.top == if first then t.top
                     else t.top.(saved := if t.top.saved == ArraySep then ArrayAfterSep else FieldStartAfterSep)
    ensures At(buf, i + |Comma(gap, first)| + |Filling(before)|, tail)
    ensures Run(t, buf, i) == Run(u, buf, i + |Comma(gap, first)| + |Filling(before)|)
  {
    hide Run, Wf, LegalGap, At, Filling;
    if first {
      assert Comma(gap, first) == "";
      NothingBefore(Filling(before) + tail);
      u := SkipGap(t, buf, i, before, tail);
    } else {
      var t1 := PassComma(t, buf, i, gap, Filling(before) + tail);
      u := SkipGap(t1, buf, i + |Comma(gap, first)|, before, tail);
    }
  }

  /** Before a separator, a complete value is as good as already added. */
  lemma PopGap(t: Tok, buf: string, i: nat, v: JValue, gap: Gap, rest: string) returns (u: Tok)
    requires Wf(t) && t.below != [] && t.top == Level(EatWs, Finish, v, "") && LegalGap(gap, t.cfg.strict)
    requires At(buf, i, Filling(gap) + rest) && rest != "" && !IsSpace(rest[0]) && rest[0] != '/'
    ensures ParentOk(t.below[|t.below| - 1])
    ensures Wf(u) && u == t.(obj := v, below := t.below[..|t.below| - 1], top := Added(t.below[|t.below| - 1], v))
    ensures Run(t, buf, i) == Run(u, buf, i)
  {
    hide Run, Wf, At, Filling, LegalGap, Added, ParentOk;
    var j := i + |Filling(gap)|;
    var t1 := SkipGap(t, buf, i, gap, rest);
    AtChars(buf, j, rest, 0);
    NoWs();
    NothingHere(buf, j);
    var u1 := Pop(t1, buf, j, v, "");
    u := u1.(pb := t.pb);
    PbIsFree(u1, t.pb);
    AddedWaits(t.below[|t.below| - 1], v);
    var u2 := SkipGap(u, buf, i, gap, rest);
  }

  lemma NothingHere(buf: string, i: nat)
    requires i <= |buf|
    ensures At(buf, i, "")
  {
  }

  lemma AddedWaits(l: Level, v: JValue)
    requires ParentOk(l)
    ensures Added(l, v).state == EatWs
  {
    hide AddMember;
  }

  lemma PbIsFree(t: Tok, pb: string)
    requires Wf(t)
    ensures Wf(t.(pb := pb))
  {
    hide TopOk, ParentsOk;
  }

  lemma NoWs()
    ensures AllWs("")
  {
  }

  /** One child: a new level is opened for it, and it ends up in the container. */
  lemma ParseInner(t: Tok, buf: string, i: nat, n: Node, tail: string, gap: Gap, rest: string, close: char) returns (u: Tok)
    requires Wf(t) && t.top.state == EatWs
    requires t.top.saved == Array || t.top.saved == ArrayAfterSep || t.top.saved == ObjValue
    requires Legal(n, t.cfg) && Nested(n, t.cfg.maxDepth - 2 - |t.below|)
    requires At(buf, i, Yield(n) + tail) && Separated(tail, gap, rest, close) && LegalGap(gap, t.cfg.strict)
    requires close == ']' || close == '}'
    ensures Wf(u) && u.cfg == t.cfg && u.below == t.below
    ensures At(buf, i + |Yield(n)|, tail)
    ensures ParentOk(WaitingFor(t.top)) && u.top == Added(WaitingFor(t.top), Meaning(n))
    ensures Run(t, buf, i) == Run(u, buf, i + |Yield(n)|)
    decreases n, 1
  {
    hide Run, Micro, StepOk, Plain, TopOk, ParentsOk, StateRank, At, Yield, Filling, Legal, Meaning, LegalGap;
    var k := |Yield(n)|;
    AtSplit(buf, i, Yield(n), tail);
    NodeStart(n, t.cfg);
    AtFirst(buf, i, Yield(n));
    var t1 := RunPush(t, buf, i);
    SeparatorStands(buf, i + k, tail, gap, rest, close, t.cfg.strict);
    var t2 := ParseNode(t1, buf, i, n);
    u := PopGap(t2, buf, i + k, Meaning(n), gap, rest);
    assert t2.below[..|t.below|] == t.below;
  }

  lemma ParseNode(t: Tok, buf: string, i: nat, n: Node) returns (u: Tok)
    requires Wf(t) && t.top == RESET_LEVEL
    requires Legal(n, t.cfg) && Nested(n, t.cfg.maxDepth - 1 - |t.below|)
    requires At(buf, i, Yield(n)) && EndIsSeen(n, buf, i + |Yield(n)|)
    ensures Done(t, u, Meaning(n)) && Run(t, buf, i) == Run(u, buf, i + |Yield(n)|)
    decreases n, 0
  {
    hide Run, Micro, Wf, At, PartsText, Chars, LegalParts, NumeralShape, ItemsYield, EntriesYield, Done, LegalWord, WordValue;
    match n
    case Word(w) => u := ParseWord(t, buf, i, w);
    case Numeral(s) => u := ParseNumeral(t, buf, i, s);
    case Quote(quote, ps) => u := ParseQuote(t, buf, i, quote, ps);
    case List(items) => u := ParseList(t, buf, i, items);
    case Dict(entries) => u := ParseDict(t, buf, i, entries);
  }

  lemma ParseList(t: Tok, buf: string, i: nat, items: Items) returns (u: Tok)
    requires Wf(t) && t.top == RESET_LEVEL
    requires LegalItems(items, true, t.cfg) && ItemsNested(items, t.cfg.maxDepth - 2 - |t.below|)
    requires At(buf, i, ['['] + (ItemsYield(items, true) + [']']))
    ensures Done(t, u, JArray(Values(items))) && Run(t, buf, i) == Run(u, buf, i + 2 + |ItemsYield(items, true)|)
    decreases items, 2
  {
    hide Run, Micro, StepOk, Plain, TopOk, ParentsOk, StateRank, At, ItemsYield, LegalItems, ItemsNested;
    NothingBefore(ItemsYield(items, true) + [']']);
    NoWs();
    var t1 := OpenContainer(t, buf, i, '[', "", ItemsYield(items, true) + [']']);
    u := ParseItems(t1, buf, i + 1, items, true, []);
    assert [] + Values(items) == Values(items);
  }

  lemma ParseDict(t: Tok, buf: string, i: nat, entries: Entries) returns (u: Tok)
    requires Wf(t) && t.top == RESET_LEVEL
    requires LegalEntries(entries, true, t.cfg) && EntriesNested(entries, t.cfg.maxDepth - 2 - |t.below|)
    requires At(buf, i, ['{'] + (EntriesYield(entries, true) + ['}']))
    ensures Done(t, u, JObject(Collect(entries, []))) && Run(t, buf, i) == Run(u, buf, i + 2 + |EntriesYield(entries, true)|)
    decreases entries, 2
  {
    hide Run, Micro, StepOk, Plain, TopOk, ParentsOk, StateRank, At, EntriesYield, LegalEntries, EntriesNested;
    NothingBefore(EntriesYield(entries, true) + ['}']);
    NoWs();
    var t1 := OpenContainer(t, buf, i, '{', "", EntriesYield(entries, true) + ['}']);
    u := ParseEntries(t1, buf, i + 1, entries, true, []);
  }

  /** The bracket that closes a container; behind a comma only without strictness. */
  lemma ReadClose(t: Tok, buf: string, i: nat, close: char) returns (u: Tok)
    requires Wf(t) && t.top.state == EatWs && i < |buf| && buf[i] == close
    requires (close == ']' && (t.top.saved == Array || t.top.saved == ArraySep || (t.top.saved == ArrayAfterSep && !t.cfg.strict)))
             || (close == '}' && (t.top.saved == FieldStart || t.top.saved == ObjSep || (t.top.saved == FieldStartAfterSep && !t.cfg.strict)))
    ensures Wf(u) && u == t.(top := t.top.(saved := Finish)) && Run(t, buf, i) == Run(u, buf, i + 1)
  {
    hide Run, StepOk, Plain, TopOk, ParentsOk, StateRank;
    var t1 := t.To(t.top.saved);
    RunRedo(t, buf, i, t1);
    u := t1.WsThen(Finish);
    RunNext(t1, buf, i, u, 1);
  }

  /** The end of a container, and what stands before it. */
  lemma CloseGap(t: Tok, buf: string, i: nat, pad: Gap, close: char) returns (u: Tok)
    requires Wf(t) && t.top.state == EatWs && LegalGap(pad, t.cfg.strict) && At(buf, i, Filling(pad) + [close])
    requires (close == ']' && (t.top.saved == Array || t.top.saved == ArraySep || (t.top.saved == ArrayAfterSep && !t.cfg.strict)))
             || (close == '}' && (t.top.saved == FieldStart || t.top.saved == ObjSep || (t.top.saved == FieldStartAfterSep && !t.cfg.strict)))
    ensures Wf(u) && u.cfg == t.cfg && u.below == t.below && u.top == t.top.(saved := Finish)
    ensures Run(t, buf, i) == Run(u, buf, i + |Filling(pad)| + 1)
  {
    hide Run, Wf, At, Filling, LegalGap;
    var t1 := SkipGap(t, buf, i, pad, [close]);
    AtChars(buf, i + |Filling(pad)|, [close], 0);
    u := ReadClose(t1, buf, i + |Filling(pad)|, close);
  }

  /** A comma with nothing behind it. */
  lemma CloseLoose(t: Tok, buf: string, i: nat, gap: Gap, pad: Gap, close: char) returns (u: Tok)
    requires Wf(t) && t.top.state == EatWs && !t.cfg.strict && LegalGap(gap, false) && LegalGap(pad, false)
    requires At(buf, i, Comma(gap, false) + Filling(pad) + [close])
    requires (close == ']' && t.top.saved == ArraySep) || (close == '}' && t.top.saved == ObjSep)
    ensures Wf(u) && u.cfg == t.cfg && u.below == t.below && u.top == t.top.(saved := Finish)
    ensures Run(t, buf, i) == Run(u, buf, i + |Comma(gap, false) + Filling(pad)| + 1)
  {
    hide Run, Wf, At, Filling, LegalGap, Comma;
    Regroup2(Comma(gap, false), Filling(pad), [close]);
    var t1 := PassComma(t, buf, i, gap, Filling(pad) + [close]);
    u := CloseGap(t1, buf, i + |Comma(gap, false)|, pad, close);
  }

  lemma ItemPut(l: Level, es: seq<JValue>, v: JValue)
    requires (l.saved == Array || l.saved == ArrayAfterSep) && l.current == JArray(es) && l.field == ""
    requires ParentOk(WaitingFor(l))
    ensures Added(WaitingFor(l), v) == Level(EatWs, ArraySep, JArray(es + [v]), "")
  {
  }

  /** The first item, with the comma before it. */
  lemma ParseItem(t: Tok, buf: string, i: nat, items: Items, first: bool, es: seq<JValue>) returns (u: Tok, j: nat)
    requires Wf(t) && t.top == Level(EatWs, if first then Array else ArraySep, JArray(es), "") && items.Item?
    requires LegalItems(items, first, t.cfg) && ItemsNested(items, t.cfg.maxDepth - 2 - |t.below|)
    requires At(buf, i, ItemsYield(items, first) + [']'])
    ensures Wf(u) && u.cfg == t.cfg && u.below == t.below
    ensures u.top == Level(EatWs, ArraySep, JArray(es + [Meaning(items.node)]), "")
    ensures j + |ItemsYield(items.rest, false)| == i + |ItemsYield(items, first)|
    ensures At(buf, j, ItemsYield(items.rest, false) + [']']) && Run(t, buf, i) == Run(u, buf, j)
    decreases items, 0
  {
    hide Run, Micro, Wf, At, Yield, ItemsYield, Legal, Nested, Meaning, LegalGap, Filling, Comma, Separated, Added, WaitingFor, ParentOk;
    ItemsSplit(items, first);
    var (n, tail) := (items.node, ItemsYield(items.rest, false) + [']']);
    var t1 := ParseComma(t, buf, i, items.gap, first, items.before, Yield(n) + tail);
    var gap, rest := ItemsSeparate(items.rest, t.cfg);
    j := i + |Comma(items.gap, first)| + |Filling(items.before)|;
    u := ParseInner(t1, buf, j, n, tail, gap, rest, ']');
    ItemPut(t1.top, es, Meaning(n));
    j := j + |Yield(n)|;
  }

  lemma ParseItems(t: Tok, buf: string, i: nat, items: Items, first: bool, es: seq<JValue>) returns (u: Tok)
    requires Wf(t) && t.top == Level(EatWs, if first then Array else ArraySep, JArray(es), "")
    requires LegalItems(items, first, t.cfg) && ItemsNested(items, t.cfg.maxDepth - 2 - |t.below|)
    requires At(buf, i, ItemsYield(items, first) + [']'])
    ensures Done(t, u, JArray(es + Values(items))) && Run(t, buf, i) == Run(u, buf, i + |ItemsYield(items, first)| + 1)
    decreases items, 1
  {
    hide Run, Micro, StepOk, Plain, TopOk, ParentsOk, StateRank, At, Yield, Legal, Nested, Meaning, LegalGap, Filling, Comma;
    match items
    case Last(pad) =>
      u := CloseGap(t, buf, i, pad, ']');
      assert es + [] == es;
    case Trailing(gap, pad) =>
      u := CloseLoose(t, buf, i, gap, pad, ']');
      assert es + [] == es;
    case Item(_, _, n, rest) =>
      var t1, j := ParseItem(t, buf, i, items, first, es);
      u := ParseItems(t1, buf, j, rest, false, es + [Meaning(n)]);
      assert es + [Meaning(n)] + Values(rest) == es + Values(items);
  }

  /** What stands before the value of a member. */
  lemma EnterEntry(t: Tok, buf: string, i: nat, e: Entries, first: bool, ms: seq<Member>, tail: string) returns (u: Tok, j: nat)
    requires Wf(t) && t.top == Level(EatWs, if first then FieldStart else ObjSep, JObject(ms), "")
    requires e.Entry? && LegalEntries(e, first, t.cfg)
    requires At(buf, i, Comma(e.gap, first) + (Filling(e.before) + (KeyYield(e.quote, e.key, e.mid) + (Filling(e.after) + tail))))
    ensures Wf(u) && u.cfg == t.cfg && u.below == t.below && u.top == Level(EatWs, ObjValue, JObject(ms), KeyOf(e.key))
    ensures j == i + |Comma(e.gap, first)| + |Filling(e.before)| + |KeyYield(e.quote, e.key, e.mid)| + |Filling(e.after)|
    ensures At(buf, j, tail) && Run(t, buf, i) == Run(u, buf, j)
  {
    hide Run, Micro, Wf, At, LegalGap, Filling, Comma, KeyYield, LegalParts, KeyOf, Legal;
    var name := KeyYield(e.quote, e.key, e.mid);
    var t1 := ParseComma(t, buf, i, e.gap, first, e.before, name + (Filling(e.after) + tail));
    var k := i + |Comma(e.gap, first)| + |Filling(e.before)|;
    AtSplit(buf, k, name, Filling(e.after) + tail);
    var t2 := ParseName(t1, buf, k, e.quote, e.key, e.mid);
    u := SkipGap(t2, buf, k + |name|, e.after, tail);
    j := k + |name| + |Filling(e.after)|;
  }

  lemma MemberPut(l: Level, ms: seq<Member>, key: string, v: JValue)
    requires l.saved == ObjValue && l.current == JObject(ms) && l.field == key && ParentOk(WaitingFor(l))
    ensures Added(WaitingFor(l), v) == Level(EatWs, ObjSep, JObject(AddMember(ms, key, v)), "")
  {
    hide AddMember;
  }

  /** The first member, with the comma before it. */
  lemma ParseEntry(t: Tok, buf: string, i: nat, e: Entries, first: bool, ms: seq<Member>) returns (u: Tok, j: nat)
    requires Wf(t) && t.top == Level(EatWs, if first then FieldStart else ObjSep, JObject(ms), "") && e.Entry?
    requires LegalEntries(e, first, t.cfg) && EntriesNested(e, t.cfg.maxDepth - 2 - |t.below|)
    requires At(buf, i, EntriesYield(e, first) + ['}'])
    ensures Wf(u) && u.cfg == t.cfg && u.below == t.below
    ensures u.top == Level(EatWs, ObjSep, JObject(AddMember(ms, KeyOf(e.key), Meaning(e.node))), "")
    ensures j + |EntriesYield(e.rest, false)| == i + |EntriesYield(e, first)|
    ensures At(buf, j, EntriesYield(e.rest, false) + ['}']) && Run(t, buf, i) == Run(u, buf, j)
    decreases e, 0
  {
    hide Run, Micro, Wf, At, Yield, EntriesYield, Legal, Nested, Meaning, LegalGap, Filling, Comma, Separated, KeyYield, LegalParts, KeyOf,
         AddMember, Added, WaitingFor, ParentOk;
    EntriesSplit(e, first);
    var tail := EntriesYield(e.rest, false) + ['}'];
    var t1, k := EnterEntry(t, buf, i, e, first, ms, Yield(e.node) + tail);
    var gap, rest := EntriesSeparate(e.rest, t.cfg);
    u := ParseInner(t1, buf, k, e.node, tail, gap, rest, '}');
    MemberPut(t1.top, ms, KeyOf(e.key), Meaning(e.node));
    j := k + |Yield(e.node)|;
  }

  lemma ParseEntries(t: Tok, buf: string, i: nat, e: Entries, first: bool, ms: seq<Member>) returns (u: Tok)
    requires Wf(t) && t.top == Level(EatWs, if first then FieldStart else ObjSep, JObject(ms), "")
    requires LegalEntries(e, first, t.cfg) && EntriesNested(e, t.cfg.maxDepth - 2 - |t.below|)
    requires At(buf, i, EntriesYield(e, first) + ['}'])
    ensures Done(t, u, JObject(Collect(e, ms))) && Run(t, buf, i) == Run(u, buf, i + |EntriesYield(e, first)| + 1)
    decreases e, 1
  {
    hide Run, Micro, StepOk, Plain, TopOk, ParentsOk, StateRank, At, Yield, Legal, Nested, Meaning, LegalGap, Filling, Comma, KeyYield, LegalParts,
         KeyOf, AddMember;
    match e
    case Stop(pad) => u := CloseGap(t, buf, i, pad, '}');
    case Loose(gap, pad) => u := CloseLoose(t, buf, i, gap, pad, '}');
    case Entry(_, _, _, key, _, _, n, rest) =>
      var t1, j := ParseEntry(t, buf, i, e, first, ms);
      u := ParseEntries(t1, buf, j, rest, false, AddMember(ms, KeyOf(key), Meaning(n)));
  }

  // ------------------------------------------------------------ documents

  /** White space and comments, a value, and more of them, in memory. */
  lemma DocumentStands(d: Document, rest: string)
    ensures var buf := DocumentText(d) + rest;
            var j := |Filling(d.lead)| + |Yield(d.node)|;
            && At(buf, 0, Filling(d.lead) + (Yield(d.node) + (Filling(d.trail) + rest)))
            && At(buf, |Filling(d.lead)|, Yield(d.node)) && At(buf, j, Filling(d.trail) + rest)
            && j + |Filling(d.trail)| == |DocumentText(d)| <= |buf|
  {
    hide Yield, Filling;
    var (a, b, c) := (Filling(d.lead), Yield(d.node), Filling(d.trail));
    var buf := DocumentText(d) + rest;
    Regroup3(a, b, c, rest);
    NothingHere(buf, 0);
    assert At(buf, 0, buf);
    AtSplit(buf, 0, a, b + (c + rest));
    AtSplit(buf, |a|, b, c + rest);
  }

  /** The NUL, or whatever else is neither white space nor a comment, ends a document. */
  predicate Ends(d: Document, rest: string, strict: bool) {
    && rest != ""
    && (rest[0] == '\0' || (!strict && !IsWs(rest[0]) && rest[0] != '/'))
    && (d.trail == [] && d.node.Numeral? ==> !IsNumberChar(rest[0]))
  }

  lemma BehindNode(buf: string, i: nat, d: Document, rest: string, cfg: Config)
    requires LegalGap(d.trail, cfg.strict) && At(buf, i, Filling(d.trail) + rest) && Ends(d, rest, cfg.strict)
    ensures EndIsSeen(d.node, buf, i)
  {
    AtChars(buf, i, Filling(d.trail) + rest, 0);
    if d.trail != [] { FillerStart(d.trail[0], cfg.strict); }
  }

  /** Every document of the grammar within the depth is parsed to its meaning, whatever stands
      behind the character that ends it. */
  lemma LegalParses(t: Tok, d: Document, rest: string)
    requires Ready(t) && LegalDocument(d, t.cfg) && Ends(d, rest, t.cfg.strict)
    ensures var r := ParseEx(t, DocumentText(d) + rest);
            r.err == Success && r.value == Meaning(d.node) && r.off == |DocumentText(d)|
  {
    hide Wf, Yield, Legal, Nested, Meaning, LegalGap, At, Run, Conclude, DocumentText, Filling, EndIsSeen, Ends;
    var buf := DocumentText(d) + rest;
    var j := |Filling(d.lead)| + |Yield(d.node)|;
    DocumentStands(d, rest);
    var s := ReadyStart(t);
    var s1 := SkipGap(s, buf, 0, d.lead, Yield(d.node) + (Filling(d.trail) + rest));
    BehindNode(buf, j, d, rest, t.cfg);
    var u := ParseNode(s1, buf, |Filling(d.lead)|, d.node);
    var u1 := SkipGap(u, buf, j, d.trail, rest);
    EndsHere(u1, buf, |DocumentText(d)|, d, rest);
  }

  lemma ReadyStart(t: Tok) returns (s: Tok)
    requires Ready(t)
    ensures s == StartCall(t) && Wf(s) && s.top == RESET_LEVEL && s.below == [] && s.cfg == t.cfg
  {
    s := StartCall(t);
  }

  lemma EndsHere(u: Tok, buf: string, i: nat, d: Document, rest: string)
    requires Wf(u) && u.below == [] && u.top == Level(EatWs, Finish, Meaning(d.node), "")
    requires At(buf, i, rest) && Ends(d, rest, u.cfg.strict)
    ensures i <= |buf|
    ensures var r := Conclude(Run(u, buf, i)); r.err == Success && r.value == Meaning(d.node) && r.off == i
  {
    hide StepOk, Plain, TopOk, ParentsOk, StateRank, Meaning, Run;
    AtChars(buf, i, rest, 0);
    var u1 := u.To(Finish);
    RunRedo(u, buf, i, u1);
    RunOut(u1, buf, i);
  }

  lemma LegalParsesZ(t: Tok, d: Document)
    requires Ready(t) && LegalDocument(d, t.cfg)
    ensures var r := ParseZ(t, DocumentText(d));
            r.err == Success && r.value == Meaning(d.node) && r.off == |DocumentText(d)|
  {
    hide ParseEx, DocumentText, LegalDocument, Meaning, Wf;
    LegalParses(t, d, ['\0']);
  }

  /** JSON by RFC 7159 without floating point numbers: every document of it within the depth
      is parsed to what it means, with its four white space characters anywhere between its
      tokens, strictly or not. */
  lemma RfcParses(t: Tok, d: Document)
    requires Ready(t) && RfcDocument(d) && Nested(d.node, t.cfg.maxDepth - 1)
    ensures var r := ParseZ(t, DocumentText(d));
            r.err == Success && r.value == Meaning(d.node) && r.off == |DocumentText(d)|
  {
    hide ParseZ, DocumentText, Yield, Legal, Meaning, Wf;
    RfcIsLegal(d.node, t.cfg);
    LegalParsesZ(t, d);
  }

  /** White space and comments change nothing: the value is that of the same tokens with
      nothing between them. */
  lemma FillingIsFree(t: Tok, d: Document)
    requires Ready(t) && LegalDocument(d, t.cfg)
    ensures ParseZ(t, DocumentText(d)).value == ParseZ(t, Yield(Bare(d.node))).value
  {
    hide ParseZ, Yield, Legal, Meaning, Wf, Bare, Nested;
    var bare := Document([], Bare(d.node), []);
    BareMeans(d.node, t.cfg, t.cfg.maxDepth - 1);
    LegalParsesZ(t, d);
    LegalParsesZ(t, bare);
    assert DocumentText(bare) == Yield(Bare(d.node));
  }
}
