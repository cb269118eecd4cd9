/** The character machine of json_tokener_parse_ex.

    Micro is one pass through the switch of the main loop; Run is the loop;
    ParseEx is one call with an explicit length, Parse one with a NUL-terminated
    text.  The variables of the C function that do not outlive a call (caseLen,
    isExp, negPos, gotHi, obj) are fields of Tok that StartCall sets back. */
module Tokener {
  import opened Decimals
  import opened JsonValue
  import opened Sequences

  datatype State =
    | EatWs | Start | Finish | Null
    | CommentStart | Comment | CommentEol | CommentEnd
    | Str | StrEscape | EscapeUnicode
    | Boolean | Number | Inf
    | Array | ArrayAfterSep | ArrayAdd | ArraySep
    | FieldStart | FieldStartAfterSep | Field | FieldEnd
    | ObjValue | ObjValueAdd | ObjSep

  /** The values of json_tokener_error that the machine can set.  Undefined is not
      one of them: it marks the one place where the C program shifts by a negative
      amount, which happens when the text is cut right after the `\u` of the escape
      behind a high surrogate that waits, whether or not it is the other half. */
  datatype Error =
    | Success | Continue
    | Depth | Eof | Unexpected | BadNull | BadBoolean | BadNumber | BadArray
    | BadKeyName | BadKeySep | BadValueSep | BadString | BadComment
    | Undefined

  /** One entry of tok->stack. */
  datatype Level = Level(state: State, saved: State, current: JValue, field: string)

  /** isDouble is the verdict of the C library's strtod on a number text. */
  datatype Config = Config(strict: bool, maxDepth: nat, isDouble: string -> bool)

  /** top is tok->stack[tok->depth], below the levels under it. */
  datatype Tok = Tok(
    cfg: Config, below: seq<Level>, top: Level, pb: string,
    dbl: bool, stPos: nat, ucs: nat, quote: char,
    caseLen: nat, isExp: bool, negPos: nat, gotHi: nat, obj: JValue)
  {
    function To(s: State): Tok { this.(top := top.(state := s)) }

    /** Skip white space, then go on in state s. */
    function WsThen(s: State): Tok { this.(top := top.(state := EatWs, saved := s)) }

    /** A complete value at the current level. */
    function Value(v: JValue): Tok {
      this.(top := top.(state := EatWs, saved := Finish, current := v))
    }

    function Append(s: string): Tok { this.(pb := pb + s) }
  }

  const RESET_LEVEL := Level(EatWs, Start, JNull, "")

  /** json_tokener_new_ex */
  function NewTok(cfg: Config): Tok {
    Tok(cfg, [], RESET_LEVEL, "", false, 0, 0, '\0', 0, false, 1, 0, JNull)
  }

  /** The locals of json_tokener_parse_ex at its start. */
  function StartCall(t: Tok): Tok {
    t.(caseLen := 0, isExp := false, negPos := 1, gotHi := 0, obj := JNull)
  }

  // ------------------------------------------------------------ characters

  predicate IsSpace(c: char) { c == ' ' || c == '\t' || c == '\n' || c == '\r' || c == 11 as char || c == 12 as char }

  function Lower(c: char): char {
    if 'A' <= c <= 'Z' then (c as int + 32) as char else c
  }

  predicate IsHex(c: char) { '0' <= c <= '9' || 'a' <= c <= 'f' || 'A' <= c <= 'F' }

  predicate IsNumberChar(c: char) { IsDigit(c) || c == '.' || c == '+' || c == '-' || c == 'e' || c == 'E' }

  /** jt_hexdigit */
  function HexVal(c: char): (v: nat)
    requires IsHex(c)
    ensures v < 16
  {
    if c <= '9' then c as int - '0' as int else c as int % 8 + 9
  }

  /** strncmp or strncasecmp of the first n chars of a keyword with the print buffer */
  predicate Matches(word: string, n: nat, pb: string, fold: bool)
    requires n <= |word|
  {
    n <= |pb| && forall i | 0 <= i < n :: pb[i] == word[i] || (fold && Lower(pb[i]) == Lower(word[i]))
  }

  function Min(a: nat, b: nat): nat { if a < b then a else b }

  // ------------------------------------------------------------ numbers

  /** The longest prefix of decimal digits. */
  function DigitPrefix(s: string): (r: string)
    ensures |r| <= |s| && r == s[..|r|]
    ensures AllDigits(r)
    ensures |r| < |s| ==> !IsDigit(s[|r|])
  {
    if s == "" || !IsDigit(s[0]) then "" else [s[0]] + DigitPrefix(s[1..])
  }

  /** json_parse_int64 on a text that does not start with white space: strtoll, which
      reads a prefix and saturates. */
  function ParseInt64(s: string): (r: Option<int>)
    ensures r.Some? ==> s != "" && INT64_MIN <= r.value <= INT64_MAX
  {
    var neg := s != "" && s[0] == '-';
    var rest := if s != "" && (s[0] == '-' || s[0] == '+') then s[1..] else s;
    var digits := DigitPrefix(rest);
    if digits == "" then None
    else
      var v := if neg then -(DecVal(digits) as int) else DecVal(digits);
      Some(if v < INT64_MIN then INT64_MIN else if v > INT64_MAX then INT64_MAX else v)
  }

  // ------------------------------------------------------------ unicode

  predicate IsHigh(uc: nat) { uc / 0x400 % 64 == 54 }
  predicate IsLow(uc: nat) { uc / 0x400 % 64 == 55 }
  function DecodePair(hi: nat, lo: nat): nat { hi % 0x400 * 0x400 + lo % 0x400 + 0x10000 }

  const REPLACEMENT: string := [0xEF as char, 0xBF as char, 0xBD as char]

  /** The UTF-8 bytes that lines 613-672 write for a code point. */
  function Utf8(u: nat): string
    requires u < 0x110000
  {
    if u < 0x80 then [u as char]
    else if u < 0x800 then [(0xC0 + u / 64) as char, (0x80 + u % 64) as char]
    else if u < 0x10000 then
      [(0xE0 + u / 4096) as char, (0x80 + u / 64 % 64) as char, (0x80 + u % 64) as char]
    else
      [(0xF0 + u / 262144) as char, (0x80 + u / 4096 % 64) as char,
       (0x80 + u / 64 % 64) as char, (0x80 + u % 64) as char]
  }

  /** What a completed \uXXXX turns into: bytes, or bytes and a high surrogate that
      waits for its other half. */
  datatype Decoded = Bytes(s: string) | HighHalf(s: string, u: nat)

  /** gotHi is the waiting high surrogate, 0 if there is none.  The surrogate tests
      look at bits 10-15 only, also when u is an already combined code point. */
  function DecodeUnit(gotHi: nat, ucs: nat): (r: Decoded)
    ensures r.HighHalf? ==> IsHigh(r.u) && r.u > 0
  {
    var paired := gotHi != 0 && IsLow(ucs);
    var lone := if gotHi != 0 && !paired then REPLACEMENT else "";
    var u := if paired then DecodePair(gotHi, ucs) else ucs;
    if u >= 0x800 && IsHigh(u) then HighHalf(lone, u)
    else if (u >= 0x800 && IsLow(u)) || u >= 0x110000 then Bytes(lone + REPLACEMENT)
    else Bytes(lone + Utf8(u))
  }

  // ------------------------------------------------------------ the switch

  /** Next: n characters were consumed.  Redo: the same character again (goto
      redo_char).  Out: goto out, after n characters were consumed. */
  datatype Step = Next(t: Tok, n: nat) | Redo(t: Tok) | Out(t: Tok, n: nat, err: Error)

  function Fail(t: Tok, e: Error): Step { Out(t, 0, e) }

  function StepEatWs(t: Tok, c: char): (r: Step)
    requires Wf(t) && (t.top.state == EatWs)
    ensures StepOk(t, r, 1)
    ensures Plain(t, r, c)
  {
    if IsSpace(c) then Next(t, 1)
    else if c == '/' && !t.cfg.strict then Next(t.(pb := [c]).To(CommentStart), 1)
    else Redo(t.To(t.top.saved))
  }

  function StepStart(t: Tok, c: char): (r: Step)
    requires Wf(t) && t.top.state == Start
    ensures StepOk(t, r, 1)
    ensures Plain(t, r, c)
  {
    if c == '{' then Next(t.(top := t.top.(state := EatWs, saved := FieldStart, current := JObject([]))), 1)
    else if c == '[' then Next(t.(top := t.top.(state := EatWs, saved := Array, current := JArray([]))), 1)
    else if c == '\'' && t.cfg.strict then Fail(t, Unexpected)
    else if c == '\'' || c == '"' then Next(t.(pb := "", quote := c).To(Str), 1)
    else StepWord(t, c)
  }

  /** The keyword state for a first letter; Start if there is none. */
  function WordState(c: char): (s: State)
    ensures s == Start || s == Inf || s == Null || s == Boolean
  {
    var l := Lower(c);
    if l == 'i' then Inf else if l == 'n' then Null else if l == 't' || l == 'f' then Boolean else Start
  }

  /** The first character of a keyword or a number is looked at again in its state. */
  function StepWord(t: Tok, c: char): (r: Step)
    requires Wf(t) && t.top.state == Start
    ensures StepOk(t, r, 1)
    ensures Plain(t, r, c)
  {
    if IsDigit(c) || c == '-' then
      Redo(t.(pb := "", dbl := false, caseLen := 0, isExp := false, negPos := 1).To(Number))
    else if WordState(c) == Start then Fail(t, Unexpected)
    else Redo(t.(pb := "", stPos := 0).To(WordState(c)))
  }

  /** The reference to the finished value is handed to the level below. */
  function StepFinish(t: Tok): (r: Step)
    requires Wf(t) && (t.top.state == Finish)
    ensures StepOk(t, r, 1)
    ensures Plain(t, r, '\0')
  {
    var n := |t.below|;
    if n == 0 then Out(t, 0, Success)
    else Redo(t.(obj := t.top.current, below := t.below[..n - 1], top := t.below[n - 1]))
  }

  function InfWord(strict: bool): (w: string)
    ensures |w| == 8
  {
    if strict then "Infinity" else "infinity"
  }

  function StepInf(t: Tok, c: char): (r: Step)
    requires Wf(t) && (t.top.state == Inf)
    ensures StepOk(t, r, 1)
    ensures Plain(t, r, c)
  {
    if t.stPos < 8 then
      if (if t.cfg.strict then c else Lower(c)) != InfWord(t.cfg.strict)[t.stPos] then Fail(t, Unexpected)
      else Next(t.(stPos := t.stPos + 1), 1)
    else
      Redo(t.Value(JDouble(if |t.pb| > 0 && t.pb[0] == '-' then "-Infinity" else "Infinity")))
  }

  function StepNull(t0: Tok, c: char): (r: Step)
    requires Wf(t0) && (t0.top.state == Null)
    ensures StepOk(t0, r, 1)
    ensures Plain(t0, r, c)
  {
    var t := t0.Append([c]);
    var fold := !t.cfg.strict;
    if Matches("null", Min(t.stPos + 1, 4), t.pb, fold) then
      if t.stPos == 4 then Redo(t.Value(JNull)) else Next(t.(stPos := t.stPos + 1), 1)
    else if Matches("NaN", Min(t.stPos + 1, 3), t.pb, fold) then
      if t.stPos == 3 then Redo(t.Value(JDouble("NaN"))) else Next(t.(stPos := t.stPos + 1), 1)
    else Fail(t, BadNull)
  }

  function StepBoolean(t0: Tok, c: char): (r: Step)
    requires Wf(t0) && (t0.top.state == Boolean)
    ensures StepOk(t0, r, 1)
    ensures Plain(t0, r, c)
  {
    var t := t0.Append([c]);
    var fold := !t.cfg.strict;
    if Matches("true", Min(t.stPos + 1, 4), t.pb, fold) then
      if t.stPos == 4 then Redo(t.Value(JBool(true))) else Next(t.(stPos := t.stPos + 1), 1)
    else if Matches("false", Min(t.stPos + 1, 5), t.pb, fold) then
      if t.stPos == 5 then Redo(t.Value(JBool(false))) else Next(t.(stPos := t.stPos + 1), 1)
    else Fail(t, BadBoolean)
  }

  function StepCommentStart(t: Tok, c: char): (r: Step)
    requires Wf(t) && t.top.state == CommentStart
    ensures StepOk(t, r, 1)
    ensures Plain(t, r, c)
  {
    if c == '*' then Next(t.Append([c]).To(Comment), 1)
    else if c == '/' then Next(t.Append([c]).To(CommentEol), 1)
    else Fail(t, BadComment)
  }

  function StepInComment(t: Tok, c: char): (r: Step)
    requires Wf(t) && t.top.state == Comment
    ensures StepOk(t, r, 1)
    ensures Plain(t, r, c)
  {
    Next(if c == '*' then t.Append([c]).To(CommentEnd) else t.Append([c]), 1)
  }

  function StepCommentEol(t: Tok, c: char): (r: Step)
    requires Wf(t) && t.top.state == CommentEol
    ensures StepOk(t, r, 1)
    ensures Plain(t, r, c)
  {
    Next(if c == '\n' then t.To(EatWs) else t.Append([c]), 1)
  }

  function StepCommentEnd(t: Tok, c: char): (r: Step)
    requires Wf(t) && t.top.state == CommentEnd
    ensures StepOk(t, r, 1)
    ensures Plain(t, r, c)
  {
    Next(t.Append([c]).To(if c == '/' then EatWs else Comment), 1)
  }

  function StepString(t: Tok, c: char): (r: Step)
    requires Wf(t) && (t.top.state == Str)
    ensures StepOk(t, r, 1)
    ensures Plain(t, r, c)
  {
    if c == t.quote then Next(t.Value(JString(t.pb)), 1)
    else if c == '\\' then Next(t.(top := t.top.(state := StrEscape, saved := Str)), 1)
    else Next(t.Append([c]), 1)
  }

  /** strdup stops at the first NUL. */
  function CString(s: string): (r: string)
    ensures '\0' !in r
    ensures '\0' !in s ==> r == s
  {
    if s == "" || s[0] == '\0' then "" else [s[0]] + CString(s[1..])
  }

  function StepField(t: Tok, c: char): (r: Step)
    requires Wf(t) && (t.top.state == Field)
    ensures StepOk(t, r, 1)
    ensures Plain(t, r, c)
  {
    if c == t.quote then
      Next(t.(top := t.top.(state := EatWs, saved := FieldEnd, field := CString(t.pb))), 1)
    else if c == '\\' then Next(t.(top := t.top.(state := StrEscape, saved := Field)), 1)
    else Next(t.Append([c]), 1)
  }

  /** What a two-character escape stands for; "" if c does not follow a backslash that way. */
  function Unescaped(c: char): string {
    match c
    case '"' => "\""
    case '\\' => "\\"
    case '/' => "/"
    case 'b' => [8 as char]
    case 'n' => "\n"
    case 'r' => "\r"
    case 't' => "\t"
    case 'f' => [12 as char]
    case _ => ""
  }

  function StepEscape(t: Tok, c: char): (r: Step)
    requires Wf(t) && t.top.state == StrEscape
    ensures StepOk(t, r, 1)
  {
    if Unescaped(c) != "" then Next(t.To(t.top.saved).Append(Unescaped(c)), 1)
    else if c == 'u' then Next(t.(ucs := 0, stPos := 0, gotHi := 0).To(EscapeUnicode), 1)
    else Fail(t, BadString)
  }

  /** One hex digit.  At the fourth, a high surrogate looks ahead in this buffer for
      the start of another escape, and steps over it. */
  function StepUnicode(t: Tok, buf: string, i: nat): (r: Step)
    requires Wf(t) && t.top.state == EscapeUnicode && i < |buf|
    ensures StepOk(t, r, |buf| - i)
  {
    var c := buf[i];
    if !IsHex(c) then Fail(t, BadString)
    else if t.stPos >= 4 then Fail(t, Undefined)
    else
      var d := t.(ucs := t.ucs + HexVal(c) * Shift(t.stPos), stPos := t.stPos + 1);
      if d.stPos < 4 then Next(d, 1) else StepCodePoint(d, buf, i)
  }

  /** 1 << (3 - stPos) * 4 */
  function Shift(stPos: nat): nat requires stPos < 4 {
    if stPos == 0 then 0x1000 else if stPos == 1 then 0x100 else if stPos == 2 then 0x10 else 1
  }

  /** The next two characters are in this buffer, and are `\u`. */
  predicate EscapeAhead(buf: string, i: nat) {
    i + 2 < |buf| && buf[i + 1] == '\\' && buf[i + 2] == 'u'
  }

  /** The four digits are complete. */
  function StepCodePoint(d: Tok, buf: string, i: nat): (r: Step)
    requires Wf(d) && d.top.state == EscapeUnicode && i < |buf|
    ensures StepOk(d, r, |buf| - i)
  {
    var back := d.To(d.top.saved).(gotHi := 0);
    match DecodeUnit(d.gotHi, d.ucs)
    case Bytes(s) => Next(back.Append(s), 1)
    case HighHalf(s, u) =>
      if EscapeAhead(buf, i) then
        if i + 3 == |buf| then Out(d.Append(s + REPLACEMENT), 3, Continue)
        else Next(d.Append(s).(gotHi := u, ucs := 0, stPos := 0), 3)
      else Next(back.Append(s + REPLACEMENT), 1)
  }

  /** The characters of a number are copied to the print buffer when the scan of the buffer
      ends; an error comes before that. */
  function Uncopied(t: Tok): Tok {
    if t.caseLen <= |t.pb| then t.(pb := t.pb[..|t.pb| - t.caseLen]) else t
  }

  function StepNumber(t: Tok, c: char): (r: Step)
    requires Wf(t) && (t.top.state == Number)
    ensures StepOk(t, r, 1)
    ensures Plain(t, r, c)
  {
    if IsNumberChar(c) then StepNumberChar(t, c) else StepNumberEnd(t, c)
  }

  predicate BadNumberChar(t: Tok, c: char) {
    (c == '.' && t.dbl) || ((c == 'e' || c == 'E') && t.isExp) || (c == '-' && t.caseLen + 1 != t.negPos)
  }

  function AfterNumberChar(t: Tok, c: char): Tok {
    var e := c == 'e' || c == 'E';
    t.(pb := t.pb + [c], caseLen := t.caseLen + 1, dbl := t.dbl || c == '.' || e, isExp := t.isExp || e,
       negPos := if e then t.caseLen + 2 else t.negPos)
  }

  function StepNumberChar(t: Tok, c: char): (r: Step)
    requires Wf(t) && (t.top.state == Number)
    ensures StepOk(t, r, 1)
    ensures Plain(t, r, c)
  {
    if BadNumberChar(t, c) then Fail(Uncopied(t), BadNumber) else Next(AfterNumberChar(t, c), 1)
  }

  /** What a complete number text stands for; None if it is not a number. */
  function NumberValue(t: Tok): Option<JValue> {
    var n := ParseInt64(t.pb);
    if !t.dbl && n.Some? then
      if n.value != 0 && t.pb[0] == '0' && t.cfg.strict then None else Some(JInt(n.value))
    else if t.dbl && t.cfg.isDouble(t.pb) then Some(JDouble(t.pb))
    else None
  }

  /** A minus sign alone, with the first letter of Infinity behind it. */
  predicate MinusInf(t: Tok, c: char) {
    |t.pb| > 0 && t.pb[0] == '-' && t.caseLen <= 1 && (c == 'i' || c == 'I')
  }

  function StepNumberEnd(t: Tok, c: char): (r: Step)
    requires Wf(t) && (t.top.state == Number)
    ensures StepOk(t, r, 1)
    ensures Plain(t, r, c)
  {
    if MinusInf(t, c) then Redo(t.(stPos := 0).To(Inf)) else StepNumberValue(t)
  }

  function StepNumberValue(t: Tok): (r: Step)
    requires Wf(t) && (t.top.state == Number)
    ensures StepOk(t, r, 1)
    ensures Plain(t, r, '\0')
  {
    match NumberValue(t)
    case None => Fail(t, BadNumber)
    case Some(v) => Redo(t.Value(v))
  }

  /** A value inside the container at the top of the stack. */
  function Push(t: Tok, s: State): (r: Step)
    requires Wf(t) && StateRank(t.top.state) == 10
    requires (s == ArrayAdd && t.top.current.JArray?) || (s == ObjValueAdd && t.top.current.JObject?)
    ensures StepOk(t, r, 1)
    ensures Plain(t, r, '\0')
  {
    if |t.below| + 1 >= t.cfg.maxDepth then Fail(t, Depth)
    else Redo(t.(below := t.below + [t.top.(state := s)], top := RESET_LEVEL))
  }

  function StepArray(t: Tok, c: char): (r: Step)
    requires Wf(t) && (t.top.state == Array || t.top.state == ArrayAfterSep)
    ensures StepOk(t, r, 1)
    ensures Plain(t, r, c)
  {
    if c == ']' then
      if t.top.state == ArrayAfterSep && t.cfg.strict then Fail(t, Unexpected)
      else Next(t.WsThen(Finish), 1)
    else Push(t, ArrayAdd)
  }

  function StepArrayAdd(t: Tok): (r: Step)
    requires Wf(t) && (t.top.state == ArrayAdd)
    ensures StepOk(t, r, 1)
    ensures Plain(t, r, '\0')
  {
    Redo(t.(top := t.top.(state := EatWs, saved := ArraySep, current := JArray(t.top.current.elems + [t.obj]))))
  }

  function StepFieldStart(t: Tok, c: char): (r: Step)
    requires Wf(t) && (t.top.state == FieldStart || t.top.state == FieldStartAfterSep)
    ensures StepOk(t, r, 1)
    ensures Plain(t, r, c)
  {
    if c == '}' then
      if t.top.state == FieldStartAfterSep && t.cfg.strict then Fail(t, Unexpected)
      else Next(t.WsThen(Finish), 1)
    else if c == '"' || c == '\'' then Next(t.(quote := c, pb := "").To(Field), 1)
    else Fail(t, BadKeyName)
  }

  function StepObjValueAdd(t: Tok): (r: Step)
    requires Wf(t) && (t.top.state == ObjValueAdd)
    ensures StepOk(t, r, 1)
    ensures Plain(t, r, '\0')
  {
    Redo(t.(top := Level(EatWs, ObjSep, JObject(AddMember(t.top.current.members, t.top.field, t.obj)), "")))
  }

  /** A separator after a value: the closing bracket, a comma, or an error. */
  function StepSep(t: Tok, c: char, close: char, after: State, e: Error): (r: Step)
    requires Wf(t) && (t.top.state == ArraySep || t.top.state == ObjSep)
    requires AfterWs(after) && Holds(after, t.top.current) && e != Undefined
    ensures StepOk(t, r, 1)
    ensures Plain(t, r, c)
  {
    if c == close then Next(t.WsThen(Finish), 1)
    else if c == ',' then Next(t.WsThen(after), 1)
    else Fail(t, e)
  }

  /** One pass through the switch at character i. */
  function Micro(t: Tok, buf: string, i: nat): (r: Step)
    requires Wf(t) && i < |buf|
    ensures StepOk(t, r, |buf| - i)
    ensures !t.top.state.StrEscape? && !t.top.state.EscapeUnicode? ==> Plain(t, r, buf[i])
  {
    var c := buf[i];
    match t.top.state
    case EatWs => StepEatWs(t, c)
    case Start => StepStart(t, c)
    case Finish => StepFinish(t)
    case Null => StepNull(t, c)
    case Boolean => StepBoolean(t, c)
    case Inf => StepInf(t, c)
    case Number => StepNumber(t, c)
    case Str => StepString(t, c)
    case StrEscape => StepEscape(t, c)
    case EscapeUnicode => StepUnicode(t, buf, i)
    case Array => StepArray(t, c)
    case ArrayAfterSep => StepArray(t, c)
    case ArrayAdd => StepArrayAdd(t)
    case ArraySep => StepSep(t, c, ']', ArrayAfterSep, BadArray)
    case FieldStart => StepFieldStart(t, c)
    case FieldStartAfterSep => StepFieldStart(t, c)
    case Field => StepField(t, c)
    case FieldEnd => if c == ':' then Next(t.WsThen(ObjValue), 1) else Fail(t, BadKeySep)
    case ObjValue => Push(t, ObjValueAdd)
    case ObjValueAdd => StepObjValueAdd(t)
    case ObjSep => StepSep(t, c, '}', FieldStartAfterSep, BadValueSep)
    case CommentStart => StepCommentStart(t, c)
    case Comment => StepInComment(t, c)
    case CommentEol => StepCommentEol(t, c)
    case CommentEnd => StepCommentEnd(t, c)
  }

  // ------------------------------------------------------------ what every step keeps

  predicate IsCommentState(s: State) { s.CommentStart? || s.Comment? || s.CommentEol? || s.CommentEnd? }

  /** States that follow white space. */
  predicate AfterWs(s: State) {
    s.Start? || s.Finish? || s.Array? || s.ArrayAfterSep? || s.ArraySep? ||
    s.FieldStart? || s.FieldStartAfterSep? || s.FieldEnd? || s.ObjValue? || s.ObjSep?
  }

  predicate InArray(s: State) { s.Array? || s.ArrayAfterSep? || s.ArrayAdd? || s.ArraySep? }

  predicate InObject(s: State) {
    s.FieldStart? || s.FieldStartAfterSep? || s.Field? || s.FieldEnd? || s.ObjValue? || s.ObjValueAdd? || s.ObjSep?
  }

  predicate Holds(s: State, v: JValue) { (InArray(s) ==> v.JArray?) && (InObject(s) ==> v.JObject?) }

  /** A level with another one above it waits for that one's value. */
  predicate ParentOk(l: Level) {
    (l.state == ArrayAdd || l.state == ObjValueAdd) && Holds(l.state, l.current) && l.saved != Finish
  }

  ghost predicate ParentsOk(below: seq<Level>) { forall i | 0 <= i < |below| :: ParentOk(below[i]) }

  predicate TopOk(l: Level) {
    && Holds(l.state, l.current)
    && (l.saved.Finish? ==> l.state.EatWs? || l.state.Finish? || IsCommentState(l.state))
    && (l.state.Finish? ==> l.saved.Finish?)
    && ((l.state == EatWs || IsCommentState(l.state)) ==> AfterWs(l.saved) && Holds(l.saved, l.current))
    && ((l.state == StrEscape || l.state == EscapeUnicode) ==>
          (l.saved == Str || l.saved == Field) && Holds(l.saved, l.current))
  }

  /** Inside the quotes of a string or a key. */
  predicate InText(s: State) { s.Str? || s.Field? || s.StrEscape? || s.EscapeUnicode? }

  ghost predicate Wf(t: Tok) {
    && |t.below| < t.cfg.maxDepth
    && TopOk(t.top)
    && ParentsOk(t.below)
    && (InText(t.top.state) ==> t.quote == '"' || t.quote == '\'')
  }

  /** A step leads to a well-formed tokener, consumes at most room characters, and
      looks at the same character again only in a lower-ranked state. */
  ghost predicate StepOk(t: Tok, r: Step, room: int)
    requires Wf(t)
  {
    && Wf(r.t) && r.t.cfg == t.cfg
    && (r.Next? ==> 1 <= r.n <= room)
    && (r.Out? ==> r.n <= room && (r.err == Success ==> r.n == 0))
    && (r.Redo? ==> Rank(r.t) < Rank(t))
  }

  /** A state in which a character is looked at for the first time. */
  predicate Settled(t: Tok) { !t.top.state.ArrayAdd? && !t.top.state.ObjValueAdd? && !t.top.state.Finish? }

  /** A step outside escapes: only a backslash starts one. */
  ghost predicate Plain(t: Tok, r: Step, c: char) {
    && r.t.gotHi == t.gotHi && !r.t.top.state.EscapeUnicode?
    && (r.Next? ==> r.n == 1 && Settled(r.t))
    && (r.Out? ==> r.err != Undefined)
    && (!r.Out? && r.t.top.state.StrEscape? ==> r.Next? && c == '\\')
    && (!r.Out? && r.t.top.state.Number? && !t.top.state.Number? ==> r.t.caseLen == 0 && !r.t.isExp && r.t.negPos == 1)
  }

  /** How many times the same character can still be looked at. */
  function StateRank(s: State): nat {
    if s.Array? || s.ArrayAfterSep? || s.ObjValue? then 10
    else if s.Start? then 8
    else if s.Number? then 7
    else if s.Inf? || s.Null? || s.Boolean? then 6
    else if s.Finish? then 4
    else if s.ArrayAdd? || s.ObjValueAdd? then 2
    else 0
  }

  function Rank(t: Tok): nat {
    if t.top.state == EatWs then 1 + StateRank(t.top.saved) else StateRank(t.top.state)
  }

  // ------------------------------------------------------------ the cases for text

  /** The cases of the switch for text. */
  lemma TextCases(t: Tok, buf: string, i: nat)
    requires Wf(t) && i < |buf|
    ensures t.top.state == Str ==> Micro(t, buf, i) == StepString(t, buf[i])
    ensures t.top.state == Field ==> Micro(t, buf, i) == StepField(t, buf[i])
    ensures t.top.state == StrEscape ==> Micro(t, buf, i) == StepEscape(t, buf[i])
    ensures t.top.state == EscapeUnicode ==> Micro(t, buf, i) == StepUnicode(t, buf, i)
  {
    hide TopOk, ParentsOk, StateRank, StepOk, Plain, StepString, StepField, StepEscape, StepUnicode;
  }

  lemma EarlyDigit(t: Tok, buf: string, i: nat)
    requires Wf(t) && t.top.state == EscapeUnicode && t.stPos < 3 && i < |buf| && IsHex(buf[i])
    ensures Micro(t, buf, i) == Next(t.(ucs := t.ucs + HexVal(buf[i]) * Shift(t.stPos), stPos := t.stPos + 1), 1)
  {
    hide Micro, ParentsOk, StateRank, TopOk, StepOk, Plain, HexVal, StepCodePoint;
    TextCases(t, buf, i);
  }

  /** The fourth digit c is read. */
  function Completed(t: Tok, c: char): Tok
    requires IsHex(c)
  {
    t.(ucs := t.ucs + HexVal(c), stPos := 4)
  }

  lemma FourthDigit(t: Tok, buf: string, i: nat)
    requires Wf(t) && t.top.state == EscapeUnicode && t.stPos == 3 && i < |buf| && IsHex(buf[i])
    ensures Wf(Completed(t, buf[i])) && Micro(t, buf, i) == StepCodePoint(Completed(t, buf[i]), buf, i)
  {
    hide Micro, StateRank, StepOk, Plain, StepCodePoint, HexVal, ParentsOk, TopOk;
    TextCases(t, buf, i);
    assert HexVal(buf[i]) * Shift(3) == HexVal(buf[i]);
  }

  // ------------------------------------------------------------ the loop and the call

  /** How a call ends: the tokener, the number of characters consumed, tok->err
      before the checks at the label out, and whether the last character was NUL. */
  datatype Halt = Halt(t: Tok, off: nat, err: Error, nul: bool)

  /** PEEK_CHAR at the end of the buffer, with the clean-up of lines 684-688. */
  function AtEnd(t: Tok, off: nat): Halt {
    var done := t.below == [] && t.top.state == EatWs && t.top.saved == Finish;
    var flushed := if t.top.state == EscapeUnicode && t.gotHi != 0 then t.Append(REPLACEMENT) else t;
    Halt(flushed, off, if done then Success else Continue, false)
  }

  function Run(t: Tok, buf: string, i: nat): (h: Halt)
    requires Wf(t) && i <= |buf|
    ensures Wf(h.t) && h.t.cfg == t.cfg && i <= h.off <= |buf|
    decreases |buf| - i, Rank(t)
  {
    if i == |buf| then AtEnd(t, i)
    else
      match Micro(t, buf, i)
      case Redo(t') => Run(t', buf, i)
      case Out(t', n, e) => Halt(t', i + n, e, buf[i] == '\0')
      case Next(t', n) =>
        if buf[i] == '\0' then Halt(t', i + n, Success, true) else Run(t', buf, i + n)
  }

  /** One step of the run. */
  lemma RunStep(t: Tok, buf: string, i: nat)
    requires Wf(t) && i < |buf|
    ensures Wf(Micro(t, buf, i).t)
    ensures match Micro(t, buf, i)
            case Redo(u) => Rank(u) < Rank(t) && Run(t, buf, i) == Run(u, buf, i)
            case Out(u, n, e) => Run(t, buf, i) == Halt(u, i + n, e, buf[i] == '\0')
            case Next(u, n) =>
              && 1 <= n && i + n <= |buf|
              && Run(t, buf, i) == if buf[i] == '\0' then Halt(u, i + n, Success, true) else Run(u, buf, i + n)
  {
    hide Micro, TopOk, ParentsOk, Plain, StateRank;
  }

  lemma RunNext(t: Tok, buf: string, i: nat, u: Tok, n: nat)
    requires Wf(t) && i < |buf| && buf[i] != '\0' && Micro(t, buf, i) == Next(u, n)
    ensures Wf(u) && i + n <= |buf| && Run(t, buf, i) == Run(u, buf, i + n)
  {
    hide Micro, TopOk, ParentsOk, Plain, StateRank, Run;
    RunStep(t, buf, i);
  }

  lemma RunRedo(t: Tok, buf: string, i: nat, u: Tok)
    requires Wf(t) && i < |buf| && Micro(t, buf, i) == Redo(u)
    ensures Wf(u) && Run(t, buf, i) == Run(u, buf, i)
  {
    hide Micro, TopOk, ParentsOk, Plain, StateRank, Run;
    RunStep(t, buf, i);
  }

  lemma RunOut(t: Tok, buf: string, i: nat)
    requires Wf(t) && i < |buf| && Micro(t, buf, i).Out?
    ensures var s := Micro(t, buf, i); Run(t, buf, i) == Halt(s.t, i + s.n, s.err, buf[i] == '\0')
  {
    hide Micro, TopOk, ParentsOk, Plain, StateRank, Run;
    RunStep(t, buf, i);
  }

  function ResetLevels(n: nat): (s: seq<Level>)
    ensures |s| == n && forall i | 0 <= i < n :: s[i] == RESET_LEVEL
  {
    seq(n, _ => RESET_LEVEL)
  }

  /** What json_tokener_parse_ex leaves behind and returns. */
  datatype Result = Result(t: Tok, off: nat, err: Error, value: JValue)

  /** The label out. */
  function Conclude(h: Halt): Result {
    var top := h.t.top;
    var e1 := if !h.nul && top.state == Finish && h.t.below == [] && h.t.cfg.strict then Unexpected else h.err;
    var e2 := if h.nul && top.state != Finish && top.saved != Finish then Eof else e1;
    if e2 == Success then
      Result(h.t.(below := ResetLevels(|h.t.below|), top := RESET_LEVEL), h.off, e2, top.current)
    else Result(h.t, h.off, e2, JNull)
  }

  /** One call with an explicit length. */
  function ParseEx(t: Tok, buf: string): (r: Result)
    requires Wf(t)
  {
    Conclude(Run(StartCall(t), buf, 0))
  }

  /** json_tokener_parse_ex with len == -1: the terminating NUL is part of what is read. */
  function ParseZ(t: Tok, text: string): (r: Result)
    requires Wf(t)
  {
    ParseEx(t, text + ['\0'])
  }
}
