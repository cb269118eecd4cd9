/** Printing, cutting and parsing together. */
module JsonDocuments {
  import opened JsonValue
  import opened JsonText
  import opened Tokener
  import opened TokenerLoop
  import opened RoundTrip
  import opened Cuts
  import opened CutsPrinted
  import opened TextScan
  import opened PrintbufModule
  import opened Serializer
  import opened JsonEqual
  import opened Quirks

  lemma {:induction false} PrintableKeys(v: JValue)
    requires Printable(v)
    ensures KeysUnique(v)
    decreases v
  {
    if v.JArray? {
      forall i | 0 <= i < |v.elems| ensures KeysUnique(v.elems[i]) { PrintableKeys(v.elems[i]); }
    } else if v.JObject? {
      forall i | 0 <= i < |v.members| ensures KeysUnique(v.members[i].val) { PrintableKeys(v.members[i].val); }
    }
  }

  /** json_object_to_json_string_ext, then json_tokener_parse_ex with length -1 on what
      the buffer holds: the copy has the same keys in the same order, and is equal. */
  method PrintAndParse(tok: JsonTokener, v: JValue, f: Flags) returns (w: JValue)
    requires tok.Valid() && Ready(tok.Snapshot())
    requires Printable(v) && Fits(v, tok.cfg.maxDepth - 1)
    modifies tok, tok.stack
    ensures tok.err == Success && w == v && Equal(v, w)
    ensures tok.Valid() && Ready(tok.Snapshot())
  {
    hide Text, Run;
    ghost var t := tok.Snapshot();
    var pb := ToJsonStringExt(v, f);
    var text := pb.buf[..pb.bpos];
    RoundTripZ(t, v, f);
    w := tok.ParseEx(text + ['\0']);
    PrintableKeys(v);
    EqualMeansSame(v, v);
    SuccessAtTop(t, v, f);
  }

  /** After the round trip the tokener is ready for the next document. */
  lemma SuccessAtTop(t: Tok, v: JValue, f: Flags)
    requires Ready(t) && Printable(v) && Fits(v, t.cfg.maxDepth - 1)
    ensures var r := ParseZ(t, Text(v, 0, f)); r.t.below == [] && r.t.top == RESET_LEVEL && r.t.cfg == t.cfg
  {
    hide Text, TopOk, ParentsOk, StateRank, Micro;
    RoundTripZ(t, v, f);
    var text := Text(v, 0, f);
    var buf := text + ['\0'];
    SuccessMeans(StartCall(t), buf, 0);
    NulEndsText(t, v, f);
  }

  lemma NulEndsText(t: Tok, v: JValue, f: Flags)
    requires Ready(t) && Printable(v) && Fits(v, t.cfg.maxDepth - 1)
    ensures !NulInComment(Run(StartCall(t), Text(v, 0, f) + ['\0'], 0))
  {
    hide Text, TopOk, ParentsOk, StateRank, Micro, Run;
    var text := Text(v, 0, f);
    var u := ParseValue(StartCall(t), text + ['\0'], 0, v, 0, f);
    EndZ(u, text + ['\0'], |text|, v);
  }

  /** The printed text of a string, an array or an object may be cut anywhere: the value
      comes back with the last piece. */
  lemma PrintedResumes(t: Tok, v: JValue, f: Flags, pieces: seq<string>)
    requires Ready(t) && Printable(v) && Fits(v, t.cfg.maxDepth - 1) && Bracketed(v)
    requires CutsUp(Text(v, 0, f), 0, pieces)
    ensures Resumes(t, pieces, v)
  {
    hide Text;
    RoundTripLength(t, v, f);
    TextEnd(v, f);
    PrintedCutSafely(v, f, 0, pieces);
    Resumable(t, Text(v, 0, f), pieces);
  }

  lemma {:induction false} PrintedCutSafely(v: JValue, f: Flags, k: nat, pieces: seq<string>)
    requires Printable(v) && k <= |Text(v, 0, f)| && CutsUp(Text(v, 0, f), k, pieces)
    ensures CutSafely(Text(v, 0, f), k, pieces)
    decreases |pieces|
  {
    hide Text, BadCut;
    if |pieces| >= 2 {
      CutLeavesRest(Text(v, 0, f), k + |pieces[0]|, pieces[1..]);
      NoBadCut(v, f, k + |pieces[0]|);
      PrintedCutSafely(v, f, k + |pieces[0]|, pieces[1..]);
    }
  }

  lemma TextEnd(v: JValue, f: Flags)
    requires Bracketed(v)
    ensures Text(v, 0, f) != "" && Closing(Text(v, 0, f)[|Text(v, 0, f)| - 1])
  {
    hide Escape, ElemsText, MembersText, CloseWs, NewLine;
  }
}
