/** The text that the serializers of json_object.c print for a value.
    Module Serializer proves that the C loops print exactly this. */
module JsonText {
  import opened Decimals
  import opened JsonValue

  /** JSON_C_TO_STRING_SPACED, _PRETTY, _PRETTY_TAB and _NOSLASHESCAPE */
  datatype Flags = Flags(spaced: bool, pretty: bool, prettyTab: bool, noSlash: bool)

  function Repeat(c: char, n: nat): (s: string)
    ensures |s| == n && forall i | 0 <= i < n :: s[i] == c
  {
    seq(n, _ => c)
  }

  function Indent(level: nat, f: Flags): string {
    if !f.pretty then ""
    else if f.prettyTab then Repeat('\t', level)
    else Repeat(' ', level * 2)
  }

  function HexDigit(n: nat): char
    requires n < 16
  {
    "0123456789abcdef"[n]
  }

  /** Is the character printed by a two-character escape, and which? */
  function ShortEscape(c: char, f: Flags): (e: string)
    ensures |e| == 0 || (|e| == 2 && e[0] == '\\')
  {
    if c == 8 as char then "\\b"
    else if c == '\n' then "\\n"
    else if c == '\r' then "\\r"
    else if c == '\t' then "\\t"
    else if c == 12 as char then "\\f"
    else if c == '"' then "\\\""
    else if c == '\\' then "\\\\"
    else if c == '/' && !f.noSlash then "\\/"
    else ""
  }

  function EscapeChar(c: char, f: Flags): string {
    if ShortEscape(c, f) != "" then ShortEscape(c, f)
    else if c < ' ' then "\\u00" + [HexDigit(c as nat / 16), HexDigit(c as nat % 16)]
    else [c]
  }

  function Escape(s: string, f: Flags): string {
    if s == "" then "" else EscapeChar(s[0], f) + Escape(s[1..], f)
  }

  /** snprintf with PRId64 */
  function IntText(n: int): string {
    if n < 0 then "-" + Digits(-n) else Digits(n)
  }

  function NewLine(f: Flags): string { if f.pretty then "\n" else "" }

  /** What is printed before the k-th child. */
  function Lead(k: nat, level: nat, f: Flags): string {
    (if k > 0 then "," + NewLine(f) else "") + LeadWs(level, f)
  }

  function LeadWs(level: nat, f: Flags): string { (if f.spaced then " " else "") + Indent(level, f) }

  /** What is printed after the last child, before the closing bracket. */
  function CloseWs(empty: bool, level: nat, f: Flags): string {
    (if empty then "" else NewLine(f)) + Indent(level, f) + (if f.spaced then " " else "")
  }

  function Text(v: JValue, level: nat, f: Flags): string
    decreases v, 0
  {
    match v
    case JNull => "null"
    case JBool(b) => if b then "true" else "false"
    case JInt(n) => IntText(n)
    case JDouble(text) => text
    case JString(s) => "\"" + Escape(s, f) + "\""
    case JArray(es) => "[" + NewLine(f) + ElemsText(es, 0, level + 1, f) + CloseWs(es == [], level, f) + "]"
    case JObject(ms) => "{" + NewLine(f) + MembersText(ms, 0, level + 1, f) + CloseWs(ms == [], level, f) + "}"
  }

  function ElemsText(es: seq<JValue>, k: nat, level: nat, f: Flags): string
    requires k <= |es|
    decreases es, |es| - k
  {
    if k == |es| then ""
    else Lead(k, level, f) + Text(es[k], level, f) + ElemsText(es, k + 1, level, f)
  }

  function KeyText(key: string, f: Flags): string {
    "\"" + Escape(key, f) + "\":" + (if f.spaced then " " else "")
  }

  function MembersText(ms: seq<Member>, k: nat, level: nat, f: Flags): string
    requires k <= |ms|
    decreases ms, |ms| - k
  {
    if k == |ms| then ""
    else Lead(k, level, f) + KeyText(ms[k].key, f) + Text(ms[k].val, level, f) + MembersText(ms, k + 1, level, f)
  }

  /** The values whose text the round trip speaks of: integers of 64 bits, keys without
      NUL (a C string), no key twice, no floating point. */
  ghost predicate Printable(v: JValue) {
    match v
    case JInt(n) => INT64_MIN <= n <= INT64_MAX
    case JDouble(_) => false
    case JArray(es) => forall i | 0 <= i < |es| :: Printable(es[i])
    case JObject(ms) =>
      && UniqueKeys(ms)
      && (forall i | 0 <= i < |ms| :: '\0' !in ms[i].key)
      && (forall i | 0 <= i < |ms| :: Printable(ms[i].val))
    case _ => true
  }

  /** Every value inside v is inside at most room containers. */
  ghost predicate Fits(v: JValue, room: int) {
    && 0 <= room
    && match v
       case JArray(es) => forall i | 0 <= i < |es| :: Fits(es[i], room - 1)
       case JObject(ms) => forall i | 0 <= i < |ms| :: Fits(ms[i].val, room - 1)
       case _ => true
  }
}
