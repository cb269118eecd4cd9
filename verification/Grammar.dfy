/** The texts that a tokener accepts, strict or not, and what they mean.  Nothing here knows the
    states of the tokener: white space, comments, digits, escapes and surrogates are written
    out.  Rfc is the part of it that is JSON by RFC 7159, floating point numbers left out. */
module Grammar {
  import opened Decimals
  import opened JsonValue
  import Tokener

  // ------------------------------------------------------------ white space and comments

  /** The four white space characters of RFC 7159, and the vertical tab and the form feed. */
  predicate IsWs(c: char) { c in " \t\n\r" || c == 11 as char || c == 12 as char }

  predicate AllWs(s: string) { forall j | 0 <= j < |s| :: IsWs(s[j]) }

  /** What may stand between two tokens. */
  datatype Filler = Ws(c: char) | Block(body: string) | ToEol(body: string)
  type Gap = seq<Filler>

  function FillerText(f: Filler): (s: string)
    ensures s != ""
  {
    match f
    case Ws(c) => [c]
    case Block(body) => "/*" + (body + "*/")
    case ToEol(body) => "//" + (body + "\n")
  }

  function Filling(gap: Gap): string { if gap == [] then "" else FillerText(gap[0]) + Filling(gap[1..]) }

  /** The inside of a comment that the next star and slash end.  A star takes the character
      behind it with it, also another star. */
  predicate InBlock(s: string, star: bool) {
    if s == "" then !star
    else s[0] != '\0' && !(star && s[0] == '/') && InBlock(s[1..], !star && s[0] == '*')
  }

  predicate LegalFiller(f: Filler, strict: bool) {
    match f
    case Ws(c) => IsWs(c)
    case Block(body) => !strict && InBlock(body, false)
    case ToEol(body) => !strict && '\n' !in body && '\0' !in body
  }

  predicate LegalGap(gap: Gap, strict: bool) { forall i | 0 <= i < |gap| :: LegalFiller(gap[i], strict) }

  /** White space of RFC 7159 */
  predicate RfcGap(gap: Gap) { forall i | 0 <= i < |gap| :: gap[i].Ws? && gap[i].c in " \t\n\r" }

  // ------------------------------------------------------------ strings

  /** One piece of a string: a character that stands for itself, a two-character escape, or
      an escape with four hexadecimal digits. */
  datatype Part = Raw(c: char) | Short(c: char) | Hex(h0: char, h1: char, h2: char, h3: char)

  function PartText(p: Part): (s: string)
    ensures s != ""
  {
    match p
    case Raw(c) => [c]
    case Short(c) => ['\\', c]
    case Hex(a, b, c, d) => ['\\', 'u', a, b, c, d]
  }

  function PartsText(ps: seq<Part>): string {
    if ps == [] then "" else PartText(ps[0]) + PartsText(ps[1..])
  }

  predicate HexChar(c: char) { '0' <= c <= '9' || 'a' <= c <= 'f' || 'A' <= c <= 'F' }

  /** The digit with this value, in both cases of the letters. */
  function HexNumber(c: char): (v: nat)
    ensures v < 16
  {
    if '0' <= c <= '9' then c as int - '0' as int
    else if 'a' <= c <= 'f' then 10 + (c as int - 'a' as int)
    else if 'A' <= c <= 'F' then 10 + (c as int - 'A' as int)
    else 0
  }

  predicate LegalPart(p: Part, quote: char) {
    match p
    case Raw(c) => c != quote && c != '\\' && c != '\0'
    case Short(c) => c in "\"\\/bfnrt"
    case Hex(a, b, c, d) => HexChar(a) && HexChar(b) && HexChar(c) && HexChar(d)
  }

  predicate LegalParts(ps: seq<Part>, quote: char) { forall i | 0 <= i < |ps| :: LegalPart(ps[i], quote) }

  function ShortValue(c: char): char {
    if c == 'b' then 8 as char
    else if c == 't' then 9 as char
    else if c == 'n' then 10 as char
    else if c == 'f' then 12 as char
    else if c == 'r' then 13 as char
    else c
  }

  function UnitValue(p: Part): (u: nat)
    requires p.Hex?
    ensures u < 0x10000
  {
    0x1000 * HexNumber(p.h0) + 0x100 * HexNumber(p.h1) + 0x10 * HexNumber(p.h2) + HexNumber(p.h3)
  }

  /** A surrogate that found no other half. */
  function Lone(hi: nat): string { if hi == 0 then "" else Tokener.Utf8(0xFFFD) }

  /** The bytes of a code point, and the code point itself if it waits for a second half.
      The low 16 bits alone decide, also above U+FFFF. */
  function CodePoint(u: nat): (string, nat)
    requires u < 0x110000
  {
    if 0xD800 <= u % 0x10000 < 0xDC00 then ("", u)
    else if 0xDC00 <= u % 0x10000 < 0xE000 then (Tokener.Utf8(0xFFFD), 0)
    else (Tokener.Utf8(u), 0)
  }

  /** The same for the escape of u behind a code point hi that waits, 0 being none. */
  function Unit(hi: nat, u: nat): (string, nat)
    requires u < 0x10000
  {
    if hi != 0 && 0xDC00 <= u < 0xE000 then CodePoint(0x10000 + hi % 0x400 * 0x400 + (u - 0xDC00))
    else var (s, w) := CodePoint(u); (Lone(hi) + s, w)
  }

  /** The bytes of a string, hi waiting before it. */
  function Chars(ps: seq<Part>, hi: nat): string
    decreases |ps|
  {
    if ps == [] then Lone(hi)
    else
      match ps[0]
      case Raw(c) => Lone(hi) + [c] + Chars(ps[1..], 0)
      case Short(c) => Lone(hi) + [ShortValue(c)] + Chars(ps[1..], 0)
      case Hex(_, _, _, _) => var (s, w) := Unit(hi, UnitValue(ps[0])); s + Chars(ps[1..], w)
  }

  // ------------------------------------------------------------ numbers

  predicate IsExp(c: char) { c == 'e' || c == 'E' }

  predicate HasExp(s: string) { 'e' in s || 'E' in s }

  predicate Fractional(s: string) { '.' in s || HasExp(s) }

  /** May the character at i > 0 stand where it does?  A minus sign stands behind the e. */
  predicate CharFits(s: string, i: nat)
    requires 0 < i < |s|
  {
    || IsDigit(s[i]) || s[i] == '+'
    || (s[i] == '-' && IsExp(s[i - 1]))
    || (s[i] == '.' && !Fractional(s[..i]))
    || (IsExp(s[i]) && !HasExp(s[..i]))
  }

  predicate NumeralShape(s: string) {
    && s != "" && (IsDigit(s[0]) || s[0] == '-')
    && forall i | 0 < i < |s| :: CharFits(s, i)
  }

  /** cfg.isDouble says which texts strtod reads to their ends. */
  predicate LegalNumeral(s: string, cfg: Tokener.Config) {
    && NumeralShape(s)
    && if Fractional(s) then cfg.isDouble(s)
       else Tokener.ParseInt64(s).Some? && (cfg.strict && s[0] == '0' ==> Tokener.ParseInt64(s).value == 0)
  }

  function NumeralValue(s: string): JValue {
    if Fractional(s) || Tokener.ParseInt64(s).None? then JDouble(s) else JInt(Tokener.ParseInt64(s).value)
  }

  /** int in section 6 of RFC 7159 */
  predicate RfcInteger(s: string) {
    var d := if s != "" && s[0] == '-' then s[1..] else s;
    d != "" && AllDigits(d) && (d[0] == '0' ==> |d| == 1)
  }

  // ------------------------------------------------------------ values

  datatype Node =
    | Word(w: string)
    | Numeral(s: string)
    | Quote(quote: char, parts: seq<Part>)
    | List(items: Items)
    | Dict(entries: Entries)

  /** What is between the brackets of an array; gap stands before the comma, which the first
      item does not have. */
  datatype Items =
    | Last(pad: Gap)
    | Trailing(gap: Gap, pad: Gap)
    | Item(gap: Gap, before: Gap, node: Node, rest: Items)

  datatype Entries =
    | Stop(pad: Gap)
    | Loose(gap: Gap, pad: Gap)
    | Entry(gap: Gap, before: Gap, quote: char, key: seq<Part>, mid: Gap, after: Gap, node: Node, rest: Entries)

  function Yield(n: Node): string {
    match n
    case Word(w) => w
    case Numeral(s) => s
    case Quote(quote, parts) => [quote] + (PartsText(parts) + [quote])
    case List(items) => ['['] + (ItemsYield(items, true) + [']'])
    case Dict(entries) => ['{'] + (EntriesYield(entries, true) + ['}'])
  }

  function Comma(gap: Gap, first: bool): string { if first then "" else Filling(gap) + [','] }

  function ItemsYield(items: Items, first: bool): string {
    match items
    case Last(pad) => Filling(pad)
    case Trailing(gap, pad) => Comma(gap, false) + Filling(pad)
    case Item(gap, before, node, rest) => Comma(gap, first) + (Filling(before) + (Yield(node) + ItemsYield(rest, false)))
  }

  function KeyYield(quote: char, key: seq<Part>, mid: Gap): string {
    [quote] + (PartsText(key) + ([quote] + (Filling(mid) + [':'])))
  }

  function EntriesYield(entries: Entries, first: bool): string {
    match entries
    case Stop(pad) => Filling(pad)
    case Loose(gap, pad) => Comma(gap, false) + Filling(pad)
    case Entry(gap, before, quote, key, mid, after, node, rest) =>
      Comma(gap, first)
      + (Filling(before) + (KeyYield(quote, key, mid) + (Filling(after) + (Yield(node) + EntriesYield(rest, false)))))
  }

  /** Small letters for capital ones. */
  function Small(c: char): char { if 'A' <= c <= 'Z' then (c as int + 32) as char else c }

  function Fold(s: string): (r: string)
    ensures |r| == |s| && forall i | 0 <= i < |s| :: r[i] == Small(s[i])
  {
    seq(|s|, i requires 0 <= i < |s| => Small(s[i]))
  }

  function WordValue(w: string): JValue {
    var f := Fold(w);
    if f == "null" then JNull
    else if f == "true" then JBool(true)
    else if f == "false" then JBool(false)
    else if f == "nan" then JDouble("NaN")
    else if f == "infinity" then JDouble("Infinity")
    else JDouble("-Infinity")
  }

  function Meaning(n: Node): JValue {
    match n
    case Word(w) => WordValue(w)
    case Numeral(s) => NumeralValue(s)
    case Quote(_, parts) => JString(Chars(parts, 0))
    case List(items) => JArray(Values(items))
    case Dict(entries) => JObject(Collect(entries, []))
  }

  function Values(items: Items): seq<JValue> {
    match items
    case Last(_) => []
    case Trailing(_, _) => []
    case Item(_, _, node, rest) => [Meaning(node)] + Values(rest)
  }

  /** A key is a C string: it ends at the first NUL. */
  function KeyOf(key: seq<Part>): string { Tokener.CString(Chars(key, 0)) }

  /** The members one after the other; a key that was there keeps its place and gets the new value. */
  function Collect(entries: Entries, ms: seq<Member>): seq<Member> {
    match entries
    case Stop(_) => ms
    case Loose(_, _) => ms
    case Entry(_, _, _, key, _, _, node, rest) => Collect(rest, AddMember(ms, KeyOf(key), Meaning(node)))
  }

  // ------------------------------------------------------------ what is accepted

  /** A strict tokener wants a word as it is written here, any other wants its letters. */
  predicate LegalWord(w: string, strict: bool) {
    if strict then w == "null" || w == "true" || w == "false" || w == "NaN" || w == "Infinity" || w == "-Infinity"
    else
      var f := Fold(w);
      f == "null" || f == "true" || f == "false" || f == "nan" || f == "infinity" || f == "-infinity"
  }

  predicate LegalQuote(c: char) { c == '"' || c == '\'' }

  predicate Legal(n: Node, cfg: Tokener.Config) {
    match n
    case Word(w) => LegalWord(w, cfg.strict)
    case Numeral(s) => LegalNumeral(s, cfg)
    case Quote(quote, parts) => LegalParts(parts, quote) && (quote == '"' || (quote == '\'' && !cfg.strict))
    case List(items) => LegalItems(items, true, cfg)
    case Dict(entries) => LegalEntries(entries, true, cfg)
  }

  predicate LegalItems(items: Items, first: bool, cfg: Tokener.Config) {
    match items
    case Last(pad) => LegalGap(pad, cfg.strict)
    case Trailing(gap, pad) => !first && !cfg.strict && LegalGap(gap, false) && LegalGap(pad, false)
    case Item(gap, before, node, rest) =>
      LegalGap(gap, cfg.strict) && LegalGap(before, cfg.strict) && Legal(node, cfg) && LegalItems(rest, false, cfg)
  }

  predicate LegalEntries(entries: Entries, first: bool, cfg: Tokener.Config) {
    match entries
    case Stop(pad) => LegalGap(pad, cfg.strict)
    case Loose(gap, pad) => !first && !cfg.strict && LegalGap(gap, false) && LegalGap(pad, false)
    case Entry(gap, before, quote, key, mid, after, node, rest) =>
      && LegalGap(gap, cfg.strict) && LegalGap(before, cfg.strict) && LegalGap(mid, cfg.strict) && LegalGap(after, cfg.strict)
      && LegalQuote(quote) && LegalParts(key, quote) && Legal(node, cfg) && LegalEntries(rest, false, cfg)
  }

  /** Every value is inside at most room brackets. */
  predicate Nested(n: Node, room: int) {
    && 0 <= room
    && match n
       case List(items) => ItemsNested(items, room - 1)
       case Dict(entries) => EntriesNested(entries, room - 1)
       case _ => true
  }

  predicate ItemsNested(items: Items, room: int) {
    items.Item? ==> Nested(items.node, room) && ItemsNested(items.rest, room)
  }

  predicate EntriesNested(entries: Entries, room: int) {
    entries.Entry? ==> Nested(entries.node, room) && EntriesNested(entries.rest, room)
  }

  datatype Document = Document(lead: Gap, node: Node, trail: Gap)

  function DocumentText(d: Document): string { Filling(d.lead) + Yield(d.node) + Filling(d.trail) }

  predicate LegalDocument(d: Document, cfg: Tokener.Config) {
    && LegalGap(d.lead, cfg.strict) && Legal(d.node, cfg) && LegalGap(d.trail, cfg.strict)
    && Nested(d.node, cfg.maxDepth - 1)
  }

  // ------------------------------------------------------------ RFC 7159

  predicate RfcParts(ps: seq<Part>) {
    LegalParts(ps, '"') && forall i | 0 <= i < |ps| :: ps[i].Raw? ==> ps[i].c >= ' '
  }

  predicate Rfc(n: Node) {
    match n
    case Word(w) => w == "null" || w == "true" || w == "false"
    case Numeral(s) => RfcInteger(s)
    case Quote(quote, parts) => quote == '"' && RfcParts(parts)
    case List(items) => RfcItems(items)
    case Dict(entries) => RfcEntries(entries)
  }

  predicate RfcItems(items: Items) {
    match items
    case Last(pad) => RfcGap(pad)
    case Trailing(_, _) => false
    case Item(gap, before, node, rest) => RfcGap(gap) && RfcGap(before) && Rfc(node) && RfcItems(rest)
  }

  predicate RfcEntries(entries: Entries) {
    match entries
    case Stop(pad) => RfcGap(pad)
    case Loose(_, _) => false
    case Entry(gap, before, quote, key, mid, after, node, rest) =>
      && RfcGap(gap) && RfcGap(before) && RfcGap(mid) && RfcGap(after)
      && quote == '"' && RfcParts(key) && Rfc(node) && RfcEntries(rest)
  }

  predicate RfcDocument(d: Document) { RfcGap(d.lead) && Rfc(d.node) && RfcGap(d.trail) }

  lemma {:induction false} RfcIsLegal(n: Node, cfg: Tokener.Config)
    requires Rfc(n)
    ensures Legal(n, cfg)
  {
    match n
    case Word(_) =>
    case Numeral(s) => RfcIntegerMeans(s);
    case Quote(_, _) =>
    case List(items) => RfcItemsLegal(items, true, cfg);
    case Dict(entries) => RfcEntriesLegal(entries, true, cfg);
  }

  lemma {:induction false} RfcItemsLegal(items: Items, first: bool, cfg: Tokener.Config)
    requires RfcItems(items)
    ensures LegalItems(items, first, cfg)
  {
    match items
    case Last(_) =>
    case Item(_, _, node, rest) =>
      RfcIsLegal(node, cfg);
      RfcItemsLegal(rest, false, cfg);
  }

  lemma {:induction false} RfcEntriesLegal(entries: Entries, first: bool, cfg: Tokener.Config)
    requires RfcEntries(entries)
    ensures LegalEntries(entries, first, cfg)
  {
    match entries
    case Stop(_) =>
    case Entry(_, _, _, _, _, _, node, rest) =>
      RfcIsLegal(node, cfg);
      RfcEntriesLegal(rest, false, cfg);
  }

  // ------------------------------------------------------------ the same tokens with nothing between them

  function Bare(n: Node): Node {
    match n
    case List(items) => List(BareItems(items))
    case Dict(entries) => Dict(BareEntries(entries))
    case _ => n
  }

  function BareItems(items: Items): Items {
    match items
    case Last(_) => Last([])
    case Trailing(_, _) => Last([])
    case Item(_, _, node, rest) => Item([], [], Bare(node), BareItems(rest))
  }

  function BareEntries(entries: Entries): Entries {
    match entries
    case Stop(_) => Stop([])
    case Loose(_, _) => Stop([])
    case Entry(_, _, quote, key, _, _, node, rest) => Entry([], [], quote, key, [], [], Bare(node), BareEntries(rest))
  }

  lemma {:induction false} BareMeans(n: Node, cfg: Tokener.Config, room: int)
    requires Legal(n, cfg) && Nested(n, room)
    ensures Legal(Bare(n), cfg) && Nested(Bare(n), room) && Meaning(Bare(n)) == Meaning(n)
  {
    match n
    case List(items) => BareItemsMean(items, true, cfg, room - 1);
    case Dict(entries) => BareEntriesMean(entries, true, cfg, room - 1, []);
    case _ =>
  }

  lemma {:induction false} BareItemsMean(items: Items, first: bool, cfg: Tokener.Config, room: int)
    requires LegalItems(items, first, cfg) && ItemsNested(items, room)
    ensures LegalItems(BareItems(items), first, cfg) && ItemsNested(BareItems(items), room) && Values(BareItems(items)) == Values(items)
  {
    if items.Item? {
      BareMeans(items.node, cfg, room);
      BareItemsMean(items.rest, false, cfg, room);
    }
  }

  lemma {:induction false} BareEntriesMean(entries: Entries, first: bool, cfg: Tokener.Config, room: int, ms: seq<Member>)
    requires LegalEntries(entries, first, cfg) && EntriesNested(entries, room)
    ensures LegalEntries(BareEntries(entries), first, cfg) && EntriesNested(BareEntries(entries), room)
    ensures Collect(BareEntries(entries), ms) == Collect(entries, ms)
  {
    if entries.Entry? {
      BareMeans(entries.node, cfg, room);
      BareEntriesMean(entries.rest, false, cfg, room, AddMember(ms, KeyOf(entries.key), Meaning(entries.node)));
    }
  }

  // ------------------------------------------------------------ what integers mean

  function Clamp(v: int): int { if v < INT64_MIN then INT64_MIN else if v > INT64_MAX then INT64_MAX else v }

  function Signed(negative: bool, d: string): int
    requires AllDigits(d)
  {
    if negative then -(DecVal(d) as int) else DecVal(d)
  }

  lemma {:induction false} DigitsEnd(d: string, rest: string)
    requires AllDigits(d) && (rest == "" || !IsDigit(rest[0]))
    ensures Tokener.DigitPrefix(d + rest) == d
  {
    if d != "" {
      assert (d + rest)[1..] == d[1..] + rest;
      DigitsEnd(d[1..], rest);
    } else {
      assert d + rest == rest;
    }
  }

  /** A number without fraction and exponent: the digits up to the first plus sign count, and
      what does not fit 64 bits becomes the nearest number that does. */
  lemma {:induction false} IntegerMeans(sign: string, d: string, rest: string)
    requires (sign == "" || sign == "-") && d != "" && AllDigits(d) && (rest == "" || rest[0] == '+')
    ensures Tokener.ParseInt64(sign + d + rest).value == Clamp(Signed(sign == "-", d))
    ensures Tokener.ParseInt64(sign + d + rest).Some?
  {
    hide DecVal, Tokener.DigitPrefix;
    DigitsEnd(d, rest);
    SignCut(sign, d, rest);
  }

  lemma SignCut(sign: string, d: string, rest: string)
    requires (sign == "" || sign == "-") && d != "" && IsDigit(d[0])
    ensures sign == "-" ==> (sign + d + rest)[0] == '-' && (sign + d + rest)[1..] == d + rest
    ensures sign == "" ==> sign + d + rest == d + rest && IsDigit((d + rest)[0])
  {
    if sign == "" { assert sign + d + rest == d + rest; }
  }

  lemma RfcShape(s: string)
    requires RfcInteger(s)
    ensures NumeralShape(s) && !Fractional(s)
  {
    hide DecVal;
    forall i | 0 < i < |s| ensures IsDigit(s[i]) {
      assert s[i] == if s[0] == '-' then s[1..][i - 1] else s[i];
    }
  }

  lemma RfcIntegerMeans(s: string)
    requires RfcInteger(s)
    ensures NumeralShape(s) && !Fractional(s) && Tokener.ParseInt64(s).Some?
    ensures s[0] == '0' ==> Tokener.ParseInt64(s).value == 0
    ensures NumeralValue(s) == JInt(Clamp(if s[0] == '-' then Signed(true, s[1..]) else Signed(false, s)))
  {
    hide NumeralShape, Fractional, Tokener.ParseInt64;
    RfcShape(s);
    if s[0] == '-' {
      assert s == "-" + s[1..] + "";
      IntegerMeans("-", s[1..], "");
    } else {
      assert s == "" + s + "";
      IntegerMeans("", s, "");
      if s[0] == '0' { ZeroIs(s); }
    }
  }

  lemma ZeroIs(s: string)
    requires s == "0"
    ensures AllDigits(s) && DecVal(s) == 0
  {
    assert s[..0] == "" && DecVal("") == 0;
  }
}
