/** json_pointer.c as functions on tokens and trees (RFC 6901). */
module JsonPointer {
  import opened Decimals
  import opened JsonValue

  // ------------------------------------------------------------ escaping

  /** Every occurrence of a text, from the left, becomes one character. */
  function Replace(s: string, occur: string, repl: char): string
    requires occur != ""
  {
    if |s| < |occur| then s
    else if occur <= s then [repl] + Replace(s[|occur|..], occur, repl)
    else [s[0]] + Replace(s[1..], occur, repl)
  }

  /** The two passes: first all ~1, then all ~0. */
  function Unescape(s: string): string { Replace(Replace(s, "~1", '/'), "~0", '~') }

  /** Section 4 of RFC 6901: ~ is written ~0 and / is written ~1. */
  function EscapeKey(key: string): string {
    if key == "" then ""
    else (if key[0] == '~' then "~0" else if key[0] == '/' then "~1" else [key[0]]) + EscapeKey(key[1..])
  }

  /** Decoding in one pass. */
  function Decode(s: string): string {
    if |s| < 2 then s
    else if s[0] == '~' && s[1] == '1' then "/" + Decode(s[2..])
    else if s[0] == '~' && s[1] == '0' then "~" + Decode(s[2..])
    else [s[0]] + Decode(s[1..])
  }

  /** The first pass makes no new ~0 and hides none: it commutes with taking characters off. */
  lemma {:induction false} TwoPassesAreOne(s: string)
    ensures Unescape(s) == Decode(s)
    decreases |s|
  {
    if |s| >= 2 {
      var r := Replace(s, "~1", '/');
      if s[0] == '~' && s[1] == '1' {
        assert "~1" <= s;
        TwoPassesAreOne(s[2..]);
        SecondPass('/', Replace(s[2..], "~1", '/'));
      } else if s[0] == '~' && s[1] == '0' {
        FirstPassSkips(s);
        TwoPassesAreOne(s[2..]);
        var rest := Replace(s[2..], "~1", '/');
        assert r == "~0" + rest;
        assert r[2..] == rest && "~0" <= r;
      } else {
        FirstPassSkips(s);
        TwoPassesAreOne(s[1..]);
        FirstStays(s[1..]);
        SecondPass(s[0], Replace(s[1..], "~1", '/'));
      }
    }
  }

  lemma StartsWith(s: string, a: char, b: char)
    requires |s| >= 2
    ensures [a, b] <= s <==> s[0] == a && s[1] == b
  {
  }

  lemma FirstPassSkips(s: string)
    requires |s| >= 2 && !(s[0] == '~' && s[1] == '1')
    ensures Replace(s, "~1", '/') == [s[0]] + Replace(s[1..], "~1", '/')
    ensures s[1] == '0' ==> Replace(s, "~1", '/') == [s[0], '0'] + Replace(s[2..], "~1", '/')
  {
    StartsWith(s, '~', '1');
    if s[1] == '0' {
      var t := s[1..];
      assert t[1..] == s[2..];
      if |t| >= 2 { StartsWith(t, '~', '1'); }
    }
  }

  /** The first character after the first pass: a 0 only where there was one. */
  lemma FirstStays(s: string)
    requires s != ""
    ensures var r := Replace(s, "~1", '/'); r != "" && (r[0] == '0' ==> s[0] == '0')
  {
  }

  lemma SecondPass(c: char, rest: string)
    requires c != '~' || rest == "" || rest[0] != '0'
    ensures Replace([c] + rest, "~0", '~') == [c] + Replace(rest, "~0", '~')
  {
    var r := [c] + rest;
    assert r[1..] == rest;
    if |r| >= 2 { StartsWith(r, '~', '0'); }
  }

  /** For every key the two passes undo its escaping. */
  lemma {:induction false} UnescapeUndoes(key: string)
    ensures Unescape(EscapeKey(key)) == key
    ensures '/' !in EscapeKey(key)
  {
    TwoPassesAreOne(EscapeKey(key));
    DecodeUndoes(key);
  }

  lemma {:induction false} DecodeUndoes(key: string)
    ensures Decode(EscapeKey(key)) == key
    ensures '/' !in EscapeKey(key)
  {
    if key != "" {
      DecodeUndoes(key[1..]);
      var e, rest := EscapeKey(key), EscapeKey(key[1..]);
      if key[0] == '~' || key[0] == '/' {
        assert e[2..] == rest;
      } else {
        assert e[1..] == rest;
      }
    }
  }

  /** Does a token contain an escape sequence? */
  predicate HasEscape(s: string) {
    |s| >= 2 && ((s[0] == '~' && (s[1] == '0' || s[1] == '1')) || HasEscape(s[1..]))
  }

  /** Unescaping changes exactly the tokens with an escape sequence. */
  lemma {:induction false} UnescapeFixes(s: string)
    ensures Unescape(s) == s <==> !HasEscape(s)
  {
    TwoPassesAreOne(s);
    DecodeFixes(s);
  }

  lemma {:induction false} DecodeFixes(s: string)
    ensures |Decode(s)| <= |s| && (HasEscape(s) ==> |Decode(s)| < |s|) && (!HasEscape(s) ==> Decode(s) == s)
    decreases |s|
  {
    if |s| >= 2 {
      if s[0] == '~' && (s[1] == '0' || s[1] == '1') { DecodeFixes(s[2..]); } else { DecodeFixes(s[1..]); }
    }
  }

  // ------------------------------------------------------------ one step

  datatype Errno = EINVAL | ENOENT

  datatype Result = Found(v: JValue) | Error(errno: Errno)

  const LONG_MAX := 0x7FFF_FFFF

  /** strtol with a 32-bit long: it stops at the largest one. */
  function StrToL(s: string): (v: nat)
    requires AllDigits(s)
    ensures v <= LONG_MAX && (v < LONG_MAX ==> v == DecVal(s)) && v <= DecVal(s)
  {
    if DecVal(s) > LONG_MAX then LONG_MAX else DecVal(s)
  }

  datatype Index = Valid(i: nat) | Invalid(errno: Errno)

  /** is_valid_index for an array of the given length */
  function ValidIndex(length: nat, path: string): (r: Index)
    ensures r.Valid? ==> r.i < length
  {
    if |path| == 1 then
      if '0' <= path[0] <= '9' then
        var i := path[0] as int - '0' as int;
        if i >= length then Invalid(ENOENT) else Valid(i)
      else Invalid(EINVAL)
    else if path != "" && path[0] == '0' then Invalid(EINVAL)
    else if !AllDigits(path) then Invalid(EINVAL)
    else if StrToL(path) >= length then Invalid(ENOENT)
    else Valid(StrToL(path))
  }

  lemma {:induction false} ValueDigits(s: string)
    requires AllDigits(s) && s != "" && (s[0] == '0' ==> |s| == 1)
    ensures Digits(DecVal(s)) == s
    decreases |s|
  {
    hide AllDigits;
    var n := |s| - 1;
    if n == 0 {
      OneDigit(s);
    } else {
      DigitsBefore(s, n);
      ValueDigits(s[..n]);
      DigitsValue(DecVal(s[..n]));
      assert s == s[..n] + [s[n]];
      LastDigit(DecVal(s[..n]), s[n]);
    }
  }

  lemma OneDigit(s: string)
    requires AllDigits(s) && |s| == 1
    ensures Digits(DecVal(s)) == s
  {
    assert s[..0] == "" && DecVal("") == 0;
  }

  lemma DigitsBefore(s: string, n: nat)
    requires AllDigits(s) && n < |s| && n > 0
    ensures AllDigits(s[..n]) && s[..n][0] == s[0] && '0' <= s[n] <= '9'
  {
  }

  lemma LastDigit(v: nat, c: char)
    requires '0' <= c <= '9' && v > 0
    ensures Digits(10 * v + (c as int - '0' as int)) == Digits(v) + [c]
  {
    var m := 10 * v + (c as int - '0' as int);
    assert m / 10 == v && m % 10 == c as int - '0' as int;
  }

  /** For arrays of less than 2^31 elements an index is accepted exactly if it is the decimal
      number of an element without leading zeros, or empty, which reads as 0. */
  lemma IndexMeans(length: nat, path: string, i: nat)
    requires length <= LONG_MAX
    ensures ValidIndex(length, path) == Valid(i) <==> i < length && (path == Digits(i) || (path == "" && i == 0))
  {
    DigitsValue(i);
    if path != "" && AllDigits(path) && (path[0] == '0' ==> |path| == 1) { ValueDigits(path); }
    if |path| == 1 && AllDigits(path) { assert path[..0] == "" && DecVal("") == 0; }
  }

  /** json_pointer_get_single_path */
  function Step(obj: JValue, token: string): Result {
    if obj.JArray? then
      match ValidIndex(|obj.elems|, token)
      case Invalid(e) => Error(e)
      case Valid(i) => if obj.elems[i] == JNull then Error(ENOENT) else Found(obj.elems[i])
    else ObjectGet(obj, Unescape(token))
  }

  /** json_object_object_get_ex */
  function ObjectGet(obj: JValue, key: string): Result {
    if obj.JObject? && FindKey(obj.members, key) < |obj.members|
    then Found(obj.members[FindKey(obj.members, key)].val) else Error(ENOENT)
  }

  // ------------------------------------------------------------ errors

  /** A token that can be an index: empty, or a number without leading zeros. */
  predicate IndexText(token: string) { token == "" || (AllDigits(token) && (token[0] == '0' ==> |token| == 1)) }

  /** EINVAL is for texts that are no index, ENOENT for indices that are too large. */
  lemma IndexErrors(length: nat, token: string)
    requires length <= LONG_MAX
    ensures ValidIndex(length, token) == Invalid(EINVAL) <==> !IndexText(token)
    ensures ValidIndex(length, token) == Invalid(ENOENT) <==> IndexText(token) && DecVal(token) >= length
  {
    if |token| == 1 && AllDigits(token) { assert token[..0] == "" && DecVal("") == 0; }
  }

  /** A lookup fails with EINVAL exactly in an array, by a token that can be no index, and with
      ENOENT exactly where there is nothing: at a scalar, for a key that is not there, behind
      the end of an array, and at its nulls. */
  lemma StepErrors(obj: JValue, token: string)
    requires obj.JArray? ==> |obj.elems| <= LONG_MAX
    ensures Step(obj, token) == Error(EINVAL) <==> obj.JArray? && !IndexText(token)
    ensures Step(obj, token) == Error(ENOENT) <==>
              if obj.JArray? then IndexText(token) && (DecVal(token) >= |obj.elems| || obj.elems[DecVal(token)] == JNull)
              else obj.JObject? ==> forall m | m in obj.members :: m.key != Unescape(token)
  {
    hide Unescape;
    if obj.JArray? {
      IndexErrors(|obj.elems|, token);
      if IndexText(token) && DecVal(token) < |obj.elems| { IndexValue(|obj.elems|, token); }
    } else if obj.JObject? {
      var i := FindKey(obj.members, Unescape(token));
      if i < |obj.members| { assert obj.members[i] in obj.members; }
    }
  }

  lemma IndexValue(length: nat, token: string)
    requires length <= LONG_MAX && IndexText(token) && DecVal(token) < length
    ensures ValidIndex(length, token) == Valid(DecVal(token))
  {
    if |token| == 1 { assert token[..0] == "" && DecVal("") == 0; }
  }

  // ------------------------------------------------------------ get

  /** The position of the first character c, |s| if there is none. */
  function IndexOf(s: string, c: char): (k: nat)
    ensures k <= |s| && c !in s[..k] && (k < |s| ==> s[k] == c)
  {
    if s == "" || s[0] == c then 0 else 1 + IndexOf(s[1..], c)
  }

  /** json_pointer_get_recursive */
  function GetPath(obj: JValue, path: string): Result
    decreases |path|
  {
    if path == "" || path[0] != '/' then Error(EINVAL)
    else
      var k := IndexOf(path[1..], '/');
      match Step(obj, path[1..1 + k])
      case Error(e) => Error(e)
      case Found(v) => if 1 + k == |path| then Found(v) else GetPath(v, path[1 + k..])
  }

  /** The reference tokens of a pointer, still escaped. */
  function Tokens(path: string): seq<string>
    decreases |path|
  {
    if path == "" then []
    else
      var k := IndexOf(path[1..], '/');
      [path[1..1 + k]] + Tokens(path[1 + k..])
  }

  /** A pointer from tokens without slashes. */
  function Join(tokens: seq<string>): string {
    if tokens == [] then "" else "/" + tokens[0] + Join(tokens[1..])
  }

  /** One lookup after the other. */
  function Follow(obj: JValue, tokens: seq<string>): Result {
    if tokens == [] then Found(obj)
    else
      match Step(obj, tokens[0])
      case Error(e) => Error(e)
      case Found(v) => Follow(v, tokens[1..])
  }

  /** The recursion is the fold of the lookups over the tokens. */
  lemma {:induction false} GetIsFold(obj: JValue, path: string)
    requires path != "" && path[0] == '/'
    ensures GetPath(obj, path) == Follow(obj, Tokens(path))
    decreases |path|
  {
    hide Step;
    var k := IndexOf(path[1..], '/');
    var toks := Tokens(path);
    assert toks[1..] == Tokens(path[1 + k..]);
    match Step(obj, path[1..1 + k])
    case Error(e) =>
    case Found(v) =>
      if 1 + k == |path| {
        assert path[1 + k..] == "";
      } else {
        GetIsFold(v, path[1 + k..]);
      }
  }

  lemma {:induction false} IndexOfJoined(token: string, rest: string)
    requires '/' !in token && (rest == "" || rest[0] == '/')
    ensures IndexOf(token + rest, '/') == |token|
    decreases |token|
  {
    if token != "" {
      assert (token + rest)[1..] == token[1..] + rest;
      IndexOfJoined(token[1..], rest);
    }
  }

  lemma {:induction false} TokensOfJoin(tokens: seq<string>)
    requires forall t | t in tokens :: '/' !in t
    ensures Tokens(Join(tokens)) == tokens
    ensures tokens != [] ==> Join(tokens) != "" && Join(tokens)[0] == '/'
  {
    hide IndexOf, Tokens;
    if tokens != [] {
      var rest := Join(tokens[1..]);
      TokensOfJoin(tokens[1..]);
      NoTokens();
      FirstToken(tokens[0], rest);
    } else {
      NoTokens();
    }
  }

  lemma NoTokens()
    ensures Tokens("") == [] && Join([]) == ""
  {
  }

  lemma FirstToken(token: string, rest: string)
    requires '/' !in token && (rest == "" || rest[0] == '/')
    ensures Tokens("/" + token + rest) == [token] + Tokens(rest)
  {
    hide IndexOf;
    IndexOfJoined(token, rest);
    var path := "/" + token + rest;
    assert path[1..] == token + rest;
    assert path[1..1 + |token|] == token && path[1 + |token|..] == rest;
  }

  lemma {:induction false} JoinOfTokens(path: string)
    requires path == "" || path[0] == '/'
    ensures Join(Tokens(path)) == path && forall t | t in Tokens(path) :: '/' !in t
    decreases |path|
  {
    hide IndexOf, Tokens, Join;
    if path != "" {
      var (token, rest) := FirstOf(path);
      JoinOfTokens(rest);
      FirstToken(token, rest);
      JoinFirst(token, Tokens(rest));
    } else {
      NoTokens();
    }
  }

  lemma JoinFirst(token: string, tokens: seq<string>)
    ensures Join([token] + tokens) == "/" + token + Join(tokens)
  {
    assert ([token] + tokens)[1..] == tokens;
  }

  /** The first token of a path, and the rest. */
  function FirstOf(path: string): (r: (string, string))
    requires path != "" && path[0] == '/'
    ensures path == "/" + r.0 + r.1 && '/' !in r.0 && (r.1 == "" || r.1[0] == '/')
  {
    var k := IndexOf(path[1..], '/');
    assert path[1..][..k] == path[1..1 + k];
    (path[1..1 + k], path[1 + k..])
  }

  /** Where the keys of nested objects lead; no key is found by any other pointer text. */
  function ByKeys(obj: JValue, keys: seq<string>): Result {
    if keys == [] then Found(obj)
    else
      match ObjectGet(obj, keys[0])
      case Error(e) => Error(e)
      case Found(v) => ByKeys(v, keys[1..])
  }

  predicate ObjectsOnly(obj: JValue, keys: seq<string>)
    decreases keys
  {
    !obj.JArray? && (keys != [] && ObjectGet(obj, keys[0]).Found? ==> ObjectsOnly(ObjectGet(obj, keys[0]).v, keys[1..]))
  }

  function EscapeAll(keys: seq<string>): (r: seq<string>)
    ensures |r| == |keys| && forall i | 0 <= i < |r| :: r[i] == EscapeKey(keys[i])
  {
    seq(|keys|, i requires 0 <= i < |keys| => EscapeKey(keys[i]))
  }

  /** Whatever characters the keys of nested objects contain, the pointer made of their
      escaped forms leads where the keys lead. */
  lemma {:induction false} EscapedKeysLead(obj: JValue, keys: seq<string>)
    requires keys != [] && ObjectsOnly(obj, keys)
    ensures GetPath(obj, Join(EscapeAll(keys))) == ByKeys(obj, keys)
  {
    var tokens := EscapeAll(keys);
    forall t | t in tokens ensures '/' !in t {
      var i :| 0 <= i < |tokens| && tokens[i] == t;
      UnescapeUndoes(keys[i]);
    }
    TokensOfJoin(tokens);
    GetIsFold(obj, Join(tokens));
    KeysFollow(obj, keys);
  }

  lemma {:induction false} KeysFollow(obj: JValue, keys: seq<string>)
    requires ObjectsOnly(obj, keys)
    ensures Follow(obj, EscapeAll(keys)) == ByKeys(obj, keys)
    decreases keys
  {
    hide Unescape, ObjectGet;
    if keys != [] {
      UnescapeUndoes(keys[0]);
      assert EscapeAll(keys)[1..] == EscapeAll(keys[1..]);
      var m := ObjectGet(obj, keys[0]);
      if m.Found? { KeysFollow(m.v, keys[1..]); }
    }
  }
}
