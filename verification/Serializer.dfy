/** The serializers of json_object.c, writing into a print buffer, print JsonText.Text. */
module Serializer {
  import opened JsonValue
  import opened JsonText
  import opened PrintbufModule

  lemma {:induction false} EscapeConcat(a: string, b: string, f: Flags)
    ensures Escape(a + b, f) == Escape(a, f) + Escape(b, f)
    decreases |a|
  {
    hide EscapeChar;
    if a == "" {
      assert a + b == b;
    } else {
      EscapeConcat(a[1..], b, f);
      assert (a + b)[1..] == a[1..] + b;
    }
  }

  /** Characters that are copied as they are. */
  predicate Raw(s: string, f: Flags) { forall i | 0 <= i < |s| :: EscapeChar(s[i], f) == [s[i]] }

  lemma {:induction false} EscapeRaw(s: string, f: Flags)
    requires Raw(s, f)
    ensures Escape(s, f) == s
    decreases |s|
  {
    hide EscapeChar;
    if s != "" {
      EscapeRaw(s[1..], f);
    }
  }

  /** The raw stretch s[start..pos] and the character after it. */
  lemma EscapeStretch(s: string, start: nat, pos: nat, f: Flags)
    requires start <= pos < |s| && Raw(s[start..pos], f)
    ensures Escape(s[..pos + 1], f) == Escape(s[..start], f) + (s[start..pos] + EscapeChar(s[pos], f))
  {
    hide EscapeChar, Raw;
    assert s[..pos + 1] == s[..start] + s[start..pos] + [s[pos]];
    EscapeConcat(s[..start] + s[start..pos], [s[pos]], f);
    EscapeConcat(s[..start], s[start..pos], f);
    EscapeRaw(s[start..pos], f);
    assert Escape([s[pos]], f) == EscapeChar(s[pos], f) + Escape("", f);
  }

  lemma RawExtends(s: string, start: nat, pos: nat, f: Flags)
    requires start <= pos < |s| && Raw(s[start..pos], f)
    requires ShortEscape(s[pos], f) == "" && s[pos] >= ' '
    ensures Raw(s[start..pos + 1], f)
  {
    assert s[start..pos + 1] == s[start..pos] + [s[pos]];
    assert EscapeChar(s[pos], f) == [s[pos]];
  }

  /** A stretch of ordinary characters, if there is one, and a character that is escaped. */
  method PutEscaped(pb: Printbuf, stretch: string, c: char, f: Flags)
    requires pb.Valid() && (ShortEscape(c, f) != "" || c < ' ')
    modifies pb, pb.buf
    ensures pb.Valid() && (pb.buf == old(pb.buf) || fresh(pb.buf))
    ensures pb.Contents() == old(pb.Contents()) + (stretch + EscapeChar(c, f))
  {
    ghost var was := pb.Contents();
    if |stretch| > 0 { pb.MemAppend(stretch); }
    assert pb.Contents() == was + stretch;
    var short := ShortEscape(c, f);
    if short != "" {
      pb.MemAppend(short);
    } else {
      pb.MemAppendFast("\\u00" + [HexDigit(c as nat / 16), HexDigit(c as nat % 16)]);
    }
    assert pb.Contents() == was + (stretch + EscapeChar(c, f));
  }

  lemma EscapeEnd(s: string, start: nat, f: Flags)
    requires start <= |s| && Raw(s[start..], f)
    ensures Escape(s, f) == Escape(s[..start], f) + s[start..]
  {
    EscapeConcat(s[..start], s[start..], f);
    EscapeRaw(s[start..], f);
    assert s[..start] + s[start..] == s;
  }

  /** json_escape_str: stretches of ordinary characters are appended in one piece. */
  method EscapeStr(pb: Printbuf, s: string, f: Flags)
    requires pb.Valid()
    modifies pb, pb.buf
    ensures pb.Valid() && (pb.buf == old(pb.buf) || fresh(pb.buf))
    ensures pb.Contents() == old(pb.Contents()) + Escape(s, f)
  {
    hide Escape, EscapeChar, ShortEscape, Raw;
    var pos, start := 0, 0;
    ghost var was := pb.Contents();
    NothingRaw(f);
    assert s[..0] == "" && was + "" == was;
    while pos < |s|
      invariant start <= pos <= |s| && pb.Valid() && (pb.buf == old(pb.buf) || fresh(pb.buf))
      invariant Raw(s[start..pos], f) && pb.Contents() == was + Escape(s[..start], f)
    {
      var c := s[pos];
      if ShortEscape(c, f) != "" || c < ' ' {
        PutEscaped(pb, s[start..pos], c, f);
        EscapeStretch(s, start, pos, f);
        pos := pos + 1;
        start := pos;
        assert s[start..pos] == "";
      } else {
        RawExtends(s, start, pos, f);
        pos := pos + 1;
      }
    }
    assert s[start..pos] == s[start..];
    EscapeEnd(s, start, f);
    if pos - start > 0 { pb.MemAppend(s[start..pos]); }
  }

  lemma NothingRaw(f: Flags)
    ensures Raw("", f) && Escape("", f) == ""
  {
  }

  method PutIndent(pb: Printbuf, level: nat, f: Flags)
    requires pb.Valid()
    modifies pb, pb.buf
    ensures pb.Valid() && (pb.buf == old(pb.buf) || fresh(pb.buf))
    ensures pb.Contents() == old(pb.Contents()) + Indent(level, f)
  {
    if f.pretty {
      if f.prettyTab {
        pb.MemSet(-1, '\t', level);
        assert seq(level, _ => '\t') == Repeat('\t', level);
      } else {
        pb.MemSet(-1, ' ', level * 2);
        assert seq(level * 2, _ => ' ') == Repeat(' ', level * 2);
      }
    }
  }

  /** What is printed before the k-th child. */
  method PutLead(pb: Printbuf, k: nat, level: nat, f: Flags)
    requires pb.Valid()
    modifies pb, pb.buf
    ensures pb.Valid() && (pb.buf == old(pb.buf) || fresh(pb.buf))
    ensures pb.Contents() == old(pb.Contents()) + Lead(k, level, f)
  {
    hide Indent;
    if k > 0 {
      pb.MemAppend(",");
      if f.pretty { pb.MemAppend("\n"); }
    }
    if f.spaced { pb.MemAppend(" "); }
    PutIndent(pb, level, f);
  }

  /** What is printed after the last child, and the closing bracket. */
  method PutClose(pb: Printbuf, empty: bool, level: nat, f: Flags, close: char)
    requires pb.Valid()
    modifies pb, pb.buf
    ensures pb.Valid() && (pb.buf == old(pb.buf) || fresh(pb.buf))
    ensures pb.Contents() == old(pb.Contents()) + (CloseWs(empty, level, f) + [close])
  {
    hide Indent;
    ghost var was := pb.Contents();
    if f.pretty {
      if !empty { pb.MemAppend("\n"); }
      PutIndent(pb, level, f);
    } else {
      assert Indent(level, f) == "" by { NoIndent(level, f); }
    }
    if f.spaced {
      pb.MemAppend([' ', close]);
    } else {
      pb.MemAppend([close]);
    }
    assert pb.Contents() == was + (CloseWs(empty, level, f) + [close]);
  }

  lemma NoIndent(level: nat, f: Flags)
    requires !f.pretty
    ensures Indent(level, f) == ""
  {
  }

  /** json_object_string_to_json_string */
  method StringToJsonString(s: string, pb: Printbuf, f: Flags)
    requires pb.Valid()
    modifies pb, pb.buf
    ensures pb.Valid() && (pb.buf == old(pb.buf) || fresh(pb.buf))
    ensures pb.Contents() == old(pb.Contents()) + ("\"" + Escape(s, f) + "\"")
  {
    hide Escape;
    pb.MemAppend("\"");
    EscapeStr(pb, s, f);
    pb.MemAppend("\"");
  }

  /** jso->_to_json_string, and the text null for a NULL pointer. */
  method ToJsonString(v: JValue, pb: Printbuf, level: nat, f: Flags)
    requires pb.Valid()
    modifies pb, pb.buf
    ensures pb.Valid() && (pb.buf == old(pb.buf) || fresh(pb.buf))
    ensures pb.Contents() == old(pb.Contents()) + Text(v, level, f)
    decreases v, 1
  {
    match v
    case JNull => pb.MemAppend("null");
    case JBool(b) => if b { pb.MemAppend("true"); } else { pb.MemAppend("false"); }
    case JInt(n) => pb.MemAppend(IntText(n));
    case JDouble(text) => pb.MemAppend(text);
    case JString(s) => StringToJsonString(s, pb, f);
    case JArray(_) => ArrayToJsonString(v, pb, level, f);
    case JObject(_) => ObjectToJsonString(v, pb, level, f);
  }

  /** json_object_array_to_json_string */
  method ArrayToJsonString(v: JValue, pb: Printbuf, level: nat, f: Flags)
    requires pb.Valid() && v.JArray?
    modifies pb, pb.buf
    ensures pb.Valid() && (pb.buf == old(pb.buf) || fresh(pb.buf))
    ensures pb.Contents() == old(pb.Contents()) + Text(v, level, f)
    decreases v, 0
  {
    hide CloseWs, ElemsText;
    var es := v.elems;
    ghost var was := pb.Contents();
    pb.MemAppend("[");
    if f.pretty { pb.MemAppend("\n"); }
    PutElems(es, pb, level + 1, f);
    ghost var body := ElemsText(es, 0, level + 1, f);
    assert pb.Contents() == was + "[" + NewLine(f) + body;
    PutClose(pb, es == [], level, f, ']');
    assert pb.Contents() == was + ("[" + NewLine(f) + body + CloseWs(es == [], level, f) + "]");
  }

  /** The loop over the elements; what is still to be printed follows what has been printed. */
  method PutElems(es: seq<JValue>, pb: Printbuf, level: nat, f: Flags)
    requires pb.Valid()
    modifies pb, pb.buf
    ensures pb.Valid() && (pb.buf == old(pb.buf) || fresh(pb.buf))
    ensures pb.Contents() == old(pb.Contents()) + ElemsText(es, 0, level, f)
    decreases es, 0
  {
    hide Lead, Text;
    ghost var goal := pb.Contents() + ElemsText(es, 0, level, f);
    var ii := 0;
    while ii < |es|
      invariant ii <= |es| && pb.Valid() && (pb.buf == old(pb.buf) || fresh(pb.buf))
      invariant goal == pb.Contents() + ElemsText(es, ii, level, f)
    {
      PutLead(pb, ii, level, f);
      ToJsonString(es[ii], pb, level, f);
      ii := ii + 1;
    }
  }

  /** json_object_object_to_json_string */
  method ObjectToJsonString(v: JValue, pb: Printbuf, level: nat, f: Flags)
    requires pb.Valid() && v.JObject?
    modifies pb, pb.buf
    ensures pb.Valid() && (pb.buf == old(pb.buf) || fresh(pb.buf))
    ensures pb.Contents() == old(pb.Contents()) + Text(v, level, f)
    decreases v, 0
  {
    hide CloseWs, MembersText;
    var ms := v.members;
    ghost var was := pb.Contents();
    pb.MemAppend("{");
    if f.pretty { pb.MemAppend("\n"); }
    PutMembers(ms, pb, level + 1, f);
    ghost var body := MembersText(ms, 0, level + 1, f);
    assert pb.Contents() == was + "{" + NewLine(f) + body;
    PutClose(pb, ms == [], level, f, '}');
    assert pb.Contents() == was + ("{" + NewLine(f) + body + CloseWs(ms == [], level, f) + "}");
  }

  method PutMembers(ms: seq<Member>, pb: Printbuf, level: nat, f: Flags)
    requires pb.Valid()
    modifies pb, pb.buf
    ensures pb.Valid() && (pb.buf == old(pb.buf) || fresh(pb.buf))
    ensures pb.Contents() == old(pb.Contents()) + MembersText(ms, 0, level, f)
    decreases ms, 0
  {
    hide Lead, Text, KeyText;
    ghost var goal := pb.Contents() + MembersText(ms, 0, level, f);
    var k := 0;
    while k < |ms|
      invariant k <= |ms| && pb.Valid() && (pb.buf == old(pb.buf) || fresh(pb.buf))
      invariant goal == pb.Contents() + MembersText(ms, k, level, f)
    {
      PutLead(pb, k, level, f);
      PutKey(pb, ms[k].key, f);
      ToJsonString(ms[k].val, pb, level, f);
      k := k + 1;
    }
  }

  method PutKey(pb: Printbuf, key: string, f: Flags)
    requires pb.Valid()
    modifies pb, pb.buf
    ensures pb.Valid() && (pb.buf == old(pb.buf) || fresh(pb.buf))
    ensures pb.Contents() == old(pb.Contents()) + KeyText(key, f)
  {
    hide Escape;
    ghost var was := pb.Contents();
    pb.MemAppend("\"");
    EscapeStr(pb, key, f);
    if f.spaced { pb.MemAppend("\": "); } else { pb.MemAppend("\":"); }
    assert pb.Contents() == was + KeyText(key, f);
  }

  /** json_object_to_json_string_length on a fresh buffer. */
  method ToJsonStringExt(v: JValue, f: Flags) returns (pb: Printbuf)
    ensures fresh(pb) && pb.Valid() && pb.Contents() == Text(v, 0, f)
  {
    pb := new Printbuf();
    pb.Reset();
    ToJsonString(v, pb, 0, f);
  }
}
