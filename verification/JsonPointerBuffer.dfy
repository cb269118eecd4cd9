/** json_pointer.c on its path buffer: the segments are unescaped in place, in the one copy
    of the path that the recursion works on. */
module JsonPointerBuffer {
  import opened Decimals
  import opened JsonValue
  import opened JsonPointer
  import opened JsonPointerSet

  const NUL := '\0'

  /** The C string t stands in memory at position s. */
  ghost predicate IsString(b: seq<char>, s: nat, t: string) {
    s + |t| < |b| && b[s + |t|] == NUL && NUL !in t && forall i {:trigger t[i]} | 0 <= i < |t| :: b[s + i] == t[i]
  }

  lemma StringTail(b: seq<char>, s: nat, t: string, k: nat)
    requires IsString(b, s, t) && k <= |t|
    ensures IsString(b, s + k, t[k..])
  {
    forall i | 0 <= i < |t[k..]| ensures b[s + k + i] == t[k..][i] {
      assert t[k..][i] == t[k + i];
    }
  }

  /** strlen */
  method StrLen(b: array<char>, s: nat, ghost t: string) returns (n: nat)
    requires IsString(b[..], s, t)
    ensures n == |t|
  {
    n := 0;
    while b[s + n] != NUL
      invariant n <= |t|
      decreases |t| - n
    {
      n := n + 1;
    }
    CharsNotNul(b[..], s, t, n);
  }

  lemma CharsNotNul(b: seq<char>, s: nat, t: string, n: nat)
    requires IsString(b, s, t) && n <= |t| && b[s + n] == NUL
    ensures n == |t|
  {
    if n < |t| {
      NotNul(t, n);
      CharAt(b, s, t, n);
    }
  }

  lemma NotNul(t: string, i: nat)
    requires NUL !in t && i < |t|
    ensures t[i] != NUL
  {
  }

  // ------------------------------------------------------------ replacing

  /** strstr(b + p, occur): the position of the first occurrence in u, relative to p. */
  method StrStr(b: array<char>, p: nat, occur: string, ghost u: string) returns (found: bool, k: nat)
    requires IsString(b[..], p, u) && occur != ""
    ensures found ==> OccursAt(u, occur, k) && NoneBefore(u, occur, k)
    ensures !found ==> NoneBefore(u, occur, |u|)
  {
    var n := StrLen(b, p, u);
    k := 0;
    while k + |occur| <= n
      invariant k <= n && NoneBefore(u, occur, k)
    {
      SameText(b[..], p, u, k, |occur|);
      if b[p + k..p + k + |occur|] == occur { return true, k; }
      k := k + 1;
    }
    found := false;
  }

  lemma SameText(b: seq<char>, p: nat, u: string, k: nat, n: nat)
    requires IsString(b, p, u) && k + n <= |u|
    ensures b[p + k..p + k + n] == u[k..k + n]
  {
    var (x, y) := (b[p + k..p + k + n], u[k..k + n]);
    forall i | 0 <= i < n ensures x[i] == y[i] {
      assert y[i] == u[k + i];
    }
  }

  predicate OccursAt(u: string, occur: string, i: nat) { i + |occur| <= |u| && u[i..i + |occur|] == occur }

  /** occur does not start in u before position k. */
  ghost predicate NoneBefore(u: string, occur: string, k: nat) {
    forall i | 0 <= i < k :: !OccursAt(u, occur, i)
  }

  lemma OccursLater(u: string, occur: string, i: nat)
    requires u != ""
    ensures OccursAt(u[1..], occur, i) <==> OccursAt(u, occur, i + 1)
  {
    if i + 1 + |occur| <= |u| { assert u[1..][i..i + |occur|] == u[i + 1..i + 1 + |occur|]; }
  }

  lemma OccursFirst(u: string, occur: string)
    ensures OccursAt(u, occur, 0) <==> occur <= u
  {
    if |occur| <= |u| { assert u[0..0 + |occur|] == u[..|occur|]; }
  }

  lemma {:induction false} NothingToReplace(u: string, occur: string, repl: char)
    requires occur != "" && NoneBefore(u, occur, |u|)
    ensures Replace(u, occur, repl) == u
    decreases |u|
  {
    if |u| >= |occur| {
      OccursFirst(u, occur);
      forall i | 0 <= i < |u[1..]| ensures !OccursAt(u[1..], occur, i) { OccursLater(u, occur, i); }
      NothingToReplace(u[1..], occur, repl);
      assert u == [u[0]] + u[1..];
    }
  }

  lemma {:induction false} ReplaceFirst(u: string, occur: string, repl: char, k: nat)
    requires occur != "" && OccursAt(u, occur, k) && NoneBefore(u, occur, k)
    ensures k + |occur| <= |u|
    ensures Replace(u, occur, repl) == u[..k] + [repl] + Replace(u[k + |occur|..], occur, repl)
    decreases k
  {
    hide OccursAt, NoneBefore, Replace;
    if k == 0 {
      ReplaceHere(u, occur, repl);
    } else {
      NotYet(u, occur, k);
      ReplaceLater(u, occur, repl);
      ReplaceFirst(u[1..], occur, repl, k - 1);
      Glue(u, k, |occur|, repl, Replace(u[k + |occur|..], occur, repl));
    }
  }

  lemma ReplaceHere(u: string, occur: string, repl: char)
    requires occur != "" && OccursAt(u, occur, 0)
    ensures |occur| <= |u| && Replace(u, occur, repl) == u[..0] + [repl] + Replace(u[|occur|..], occur, repl)
  {
    OccursFirst(u, occur);
    assert u[..0] == "" && "" + [repl] == [repl];
  }

  lemma ReplaceLater(u: string, occur: string, repl: char)
    requires occur != "" && |occur| <= |u| && !(occur <= u)
    ensures Replace(u, occur, repl) == [u[0]] + Replace(u[1..], occur, repl)
  {
  }

  lemma Glue(u: string, k: nat, n: nat, repl: char, rest: string)
    requires 0 < k && k + n <= |u|
    ensures u[1..][k - 1 + n..] == u[k + n..]
    ensures [u[0]] + (u[1..][..k - 1] + [repl] + rest) == u[..k] + [repl] + rest
  {
    assert u[..k] == [u[0]] + u[1..][..k - 1];
  }

  lemma NotYet(u: string, occur: string, k: nat)
    requires k > 0 && OccursAt(u, occur, k) && NoneBefore(u, occur, k)
    ensures !(occur <= u) && |occur| <= |u| && k + |occur| <= |u|
    ensures OccursAt(u[1..], occur, k - 1) && NoneBefore(u[1..], occur, k - 1)
  {
    OccursFirst(u, occur);
    assert !OccursAt(u, occur, 0);
    forall i | 0 <= i < k - 1 ensures !OccursAt(u[1..], occur, i) { OccursLater(u, occur, i); }
    OccursLater(u, occur, k - 1);
  }

  /** Memory after memmove(b + to, b + from, n). */
  function Moved(b: seq<char>, to: nat, from: nat, n: nat): (r: seq<char>)
    requires to <= from && from + n <= |b|
    ensures |r| == |b|
  {
    seq(|b|, i requires 0 <= i < |b| => if to <= i < to + n then b[i + (from - to)] else b[i])
  }

  /** memmove for to <= from */
  method MemMove(b: array<char>, to: nat, from: nat, n: nat)
    requires to <= from && from + n <= b.Length
    modifies b
    ensures b[..] == Moved(old(b[..]), to, from, n)
  {
    ghost var was := b[..];
    var j := 0;
    while j < n
      invariant j <= n
      invariant forall i {:trigger b[i]} | 0 <= i < b.Length ::
                  b[i] == if to <= i < to + j then was[i + (from - to)] else was[i]
    {
      b[to + j] := b[from + j];
      j := j + 1;
    }
    IsMoved(was, b[..], to, from, n);
  }

  lemma IsMoved(was: seq<char>, now: seq<char>, to: nat, from: nat, n: nat)
    requires to <= from && from + n <= |was| == |now|
    requires forall i {:trigger now[i]} | 0 <= i < |now| ::
               now[i] == if to <= i < to + n then was[i + (from - to)] else was[i]
    ensures now == Moved(was, to, from, n)
  {
  }

  /** Memory outside a range is as it was. */
  ghost predicate SameOutside(was: seq<char>, now: seq<char>, lo: nat, hi: nat) {
    |now| == |was| && forall i {:trigger now[i]} | 0 <= i < |now| && !(lo <= i < hi) :: now[i] == was[i]
  }

  lemma NothingChanged(b: seq<char>, lo: nat, hi: nat)
    ensures SameOutside(b, b, lo, hi)
  {
  }

  lemma SameTransitive(a: seq<char>, b: seq<char>, c: seq<char>, lo: nat, hi: nat, less: nat)
    requires SameOutside(a, b, lo, hi) && SameOutside(b, c, lo, less) && less <= hi
    ensures SameOutside(a, c, lo, hi)
  {
  }

  method Poke(b: array<char>, i: nat, c: char)
    requires i < b.Length
    modifies b
    ensures b[..] == old(b[..])[i := c]
  {
    b[i] := c;
  }

  /** One turn of the loop: the occurrence at position k of the rest is replaced. */
  method ReplaceOne(b: array<char>, s: nat, p: nat, k: nat, occur: string, repl: char, slen: nat, ghost t: string)
    returns (next: nat, newLen: nat)
    requires IsString(b[..], s, t) && slen == |t| && s <= p && occur != "" && repl != NUL
    requires p - s + k + |occur| <= |t|
    modifies b
    ensures next == p + k + 1 && newLen == slen - (|occur| - 1)
    ensures IsString(b[..], s, t[..p - s + k] + [repl] + t[p - s + k + |occur|..])
    ensures SameOutside(old(b[..]), b[..], s, s + |t|)
  {
    hide IsString, Moved, SameOutside;
    ghost var was := b[..];
    StringEnd(was, s, t);
    next, newLen := CloseUp(b, s, p, k, |occur|, repl, slen);
    OneReplaced(was, was[p + k := repl], b[..], s, t, p, k, |occur|, repl);
  }

  /** The assignments of the loop body. */
  method CloseUp(b: array<char>, s: nat, p: nat, k: nat, n: nat, repl: char, slen: nat) returns (next: nat, newLen: nat)
    requires s <= p && n > 0 && p - s + k + n <= slen && s + slen < b.Length
    modifies b
    ensures next == p + k + 1 && newLen == slen - (n - 1)
    ensures b[..] == Moved(old(b[..])[p + k := repl], next, next + (n - 1), newLen - (next - s) + 1)
  {
    hide Moved;
    var skip := n - 1;
    Poke(b, p + k, repl);
    next := p + k + 1;
    newLen := slen - skip;
    MemMove(b, next, next + skip, newLen - (next - s) + 1);
  }

  lemma OneReplaced(was: seq<char>, mid: seq<char>, now: seq<char>, s: nat, t: string, p: nat, k: nat, n: nat, repl: char)
    requires IsString(was, s, t) && s <= p && n > 0 && repl != NUL
    requires p - s + k + n <= |t| && s + |t| < |was|
    requires mid == was[p + k := repl]
    requires now == Moved(mid, p + k + 1, p + k + 1 + (n - 1), |t| - (n - 1) - (p + k + 1 - s) + 1)
    ensures IsString(now, s, t[..p - s + k] + [repl] + t[p - s + k + n..])
    ensures SameOutside(was, now, s, s + |t|)
  {
    hide IsString, Moved, SameOutside;
    StringEnd(was, s, t);
    MovedString(was, now, s, t, p - s + k, n, repl);
    MovedOutside(was, now, s, t, p - s + k, n, repl);
  }

  lemma MovedOutside(was: seq<char>, now: seq<char>, s: nat, t: string, at: nat, n: nat, repl: char)
    requires n > 0 && at + n <= |t| && s + |t| < |was| && was[s + |t|] == NUL
    requires now == Moved(was[s + at := repl], s + at + 1, s + at + n, |t| - n - at + 1)
    ensures SameOutside(was, now, s, s + |t|)
  {
  }

  lemma StringEnd(b: seq<char>, s: nat, t: string)
    requires IsString(b, s, t)
    ensures s + |t| < |b| && b[s + |t|] == NUL && NUL !in t
  {
  }

  lemma CharAt(b: seq<char>, s: nat, t: string, i: nat)
    requires IsString(b, s, t) && i < |t|
    ensures s + |t| < |b| && b[s + i] == t[i]
  {
  }

  lemma MakeString(b: seq<char>, s: nat, t: string)
    requires s + |t| < |b| && b[s + |t|] == NUL && NUL !in t
    requires forall i {:trigger t[i]} | 0 <= i < |t| :: b[s + i] == t[i]
    ensures IsString(b, s, t)
  {
  }

  lemma MovedString(was: seq<char>, now: seq<char>, s: nat, t: string, at: nat, n: nat, repl: char)
    requires IsString(was, s, t) && n > 0 && at + n <= |t| && repl != NUL && s + |t| < |was|
    requires now == Moved(was[s + at := repl], s + at + 1, s + at + n, |t| - n - at + 1)
    ensures IsString(now, s, t[..at] + [repl] + t[at + n..])
  {
    hide IsString;
    var r := t[..at] + [repl] + t[at + n..];
    StringEnd(was, s, t);
    forall i {:trigger r[i]} | 0 <= i < |r| ensures now[s + i] == r[i] {
      var k := s + i;
      if i > at {
        CharAt(was, s, t, i + n - 1);
        assert now[k] == was[k + (n - 1)];
        assert r[i] == t[at + n..][i - at - 1] == t[i + n - 1];
      } else if i < at {
        CharAt(was, s, t, i);
        assert now[k] == was[k] && r[i] == t[i];
      } else {
        assert now[k] == repl && r[i] == repl;
      }
    }
    var e := s + |r|;
    assert now[e] == was[e + (n - 1)];
    MakeString(now, s, r);
  }

  /** string_replace_all_occurrences_with_char */
  method ReplaceAll(b: array<char>, s: nat, occur: string, repl: char, ghost t0: string)
    requires IsString(b[..], s, t0) && occur != "" && repl != NUL
    modifies b
    ensures IsString(b[..], s, Replace(t0, occur, repl))
    ensures |Replace(t0, occur, repl)| <= |t0|
    ensures SameOutside(old(b[..]), b[..], s, s + |t0|)
  {
    hide IsString, Replace, SameOutside;
    ghost var t, first := t0, b[..];
    NothingChanged(first, s, s + |t0|);
    var slen := StrLen(b, s, t);
    var p := s;
    while true
      invariant s <= p <= s + |t| && slen == |t| <= |t0|
      invariant IsString(b[..], s, t)
      invariant t[..p - s] + Replace(t[p - s..], occur, repl) == Replace(t0, occur, repl)
      invariant SameOutside(first, b[..], s, s + |t0|)
      decreases |t| - (p - s)
    {
      ghost var mid := b[..];
      StringTail(b[..], s, t, p - s);
      ghost var rest := t[p - s..];
      var found, k := StrStr(b, p, occur, rest);
      if !found {
        NothingToReplace(rest, occur, repl);
        assert t[..p - s] + rest == t;
        break;
      }
      ReplaceFirst(rest, occur, repl, k);
      ghost var was, done := t, p - s;
      p, slen := ReplaceOne(b, s, p, k, occur, repl, slen, t);
      SameTransitive(first, mid, b[..], s, s + |t0|, s + |was|);
      t := was[..done + k] + [repl] + was[done + k + |occur|..];
      Regrouped(was, done, k, |occur|, repl, Replace(rest[k + |occur|..], occur, repl));
    }
  }

  lemma Regrouped(was: string, done: nat, k: nat, n: nat, repl: char, rest: string)
    requires done + k + n <= |was|
    ensures var t := was[..done + k] + [repl] + was[done + k + n..];
            && t[done + k + 1..] == was[done..][k + n..]
            && t[..done + k + 1] + rest == was[..done] + (was[done..][..k] + [repl] + rest)
  {
  }

  // ------------------------------------------------------------ get

  /** strtol on a string of digits, with a 32-bit long */
  method StrToLong(path: string) returns (n: nat)
    requires AllDigits(path)
    ensures n == StrToL(path)
  {
    n := 0;
    var i := 0;
    assert path[..0] == "";
    while i < |path|
      invariant i <= |path| && n == StrToL(path[..i])
    {
      assert path[..i + 1][..i] == path[..i];
      n := 10 * n + (path[i] as int - '0' as int);
      if n > LONG_MAX { n := LONG_MAX; }
      i := i + 1;
    }
    assert path[..|path|] == path;
  }

  /** is_valid_index */
  method IsValidIndex(length: nat, path: string) returns (r: Index)
    ensures r == ValidIndex(length, path)
  {
    hide StrToL;
    var len := |path|;
    if len == 1 {
      if '0' <= path[0] <= '9' {
        var idx := path[0] as int - '0' as int;
        if idx >= length { return Invalid(ENOENT); }
        return Valid(idx);
      }
      return Invalid(EINVAL);
    }
    if len > 0 && path[0] == '0' { return Invalid(EINVAL); }
    for i := 0 to len
      invariant forall j | 0 <= j < i :: '0' <= path[j] <= '9'
    {
      if !('0' <= path[i] <= '9') { return Invalid(EINVAL); }
    }
    var idx := StrToLong(path);
    if idx >= length { return Invalid(ENOENT); }
    r := Valid(idx);
  }

  /** json_pointer_get_single_path on the segment at position path, which it may rewrite. */
  method GetSinglePath(obj: JValue, b: array<char>, path: nat, ghost t: string) returns (r: Result)
    requires IsString(b[..], path, t)
    modifies b
    ensures r == Step(obj, t)
    ensures SameOutside(old(b[..]), b[..], path, path + |t|)
  {
    hide IsString, Replace, ValidIndex, SameOutside;
    ghost var first := b[..];
    NothingChanged(first, path, path + |t|);
    if obj.JArray? {
      var n := StrLen(b, path, t);
      Text(b[..], path, t);
      var idx := IsValidIndex(|obj.elems|, b[path..path + n]);
      match idx {
        case Invalid(e) => return Error(e);
        case Valid(i) =>
          if obj.elems[i] == JNull { return Error(ENOENT); }
          return Found(obj.elems[i]);
      }
    }
    ReplaceAll(b, path, "~1", '/', t);
    ghost var t1 := Replace(t, "~1", '/');
    ghost var mid := b[..];
    ReplaceAll(b, path, "~0", '~', t1);
    SameTransitive(first, mid, b[..], path, path + |t|, path + |t1|);
    var n := StrLen(b, path, Unescape(t));
    Text(b[..], path, Unescape(t));
    r := ObjectGet(obj, b[path..path + n]);
  }

  lemma Text(b: seq<char>, s: nat, t: string)
    requires IsString(b, s, t)
    ensures s + |t| < |b| && b[s..s + |t|] == t
  {
    forall i | 0 <= i < |t| ensures b[s..s + |t|][i] == t[i] { assert b[s + i] == t[i]; }
  }

  /** strchr(b + path, '/'), relative to path; none is the end of the string. */
  method FindSlash(b: array<char>, path: nat, ghost t: string) returns (k: nat)
    requires IsString(b[..], path, t)
    ensures k == IndexOf(t, '/')
  {
    var n := StrLen(b, path, t);
    Text(b[..], path, t);
    ghost var text := b[path..path + n];
    k := 0;
    assert t[0..] == t;
    while k < n && b[path + k] != '/'
      invariant k <= n && IndexOf(t, '/') == k + IndexOf(t[k..], '/')
    {
      CharAt(b[..], path, t, k);
      assert t[k..][1..] == t[k + 1..];
      k := k + 1;
    }
    if k < n { CharAt(b[..], path, t, k); }
  }

  /** json_pointer_get_recursive at position start of the buffer: each segment is cut off with
      a NUL, unescaped and looked up, and the slash put back before the rest is looked at. */
  method GetRecursive(obj: JValue, b: array<char>, start: nat, ghost t: string) returns (r: Result)
    requires IsString(b[..], start, t)
    modifies b
    ensures r == GetPath(obj, t)
    decreases |t|
  {
    hide IsString, Step, IndexOf;
    StartOf(b[..], start, t);
    if b[start] != '/' { return Error(EINVAL); }
    var path := start + 1;
    StringTail(b[..], start, t, 1);
    ghost var text := t[1..];
    var k := FindSlash(b, path, text);
    var n := StrLen(b, path, text);
    SlashIs(text, k);
    ghost var was := b[..];
    assert text[..k] == t[1..1 + k];
    if k < n {
      b[path + k] := NUL;
    }
    CutOff(was, b[..], path, text, k);
    r := GetSinglePath(obj, b, path, text[..k]);
    if r.Error? { return; }
    if k < n {
      var endp := path + k;
      b[endp] := '/';
      PutBack(was, b[..], path, text, k);
      assert text[k..] == t[1 + k..];
      r := GetRecursive(r.v, b, endp, text[k..]);
    }
  }

  lemma SlashIs(s: string, k: nat)
    requires k == IndexOf(s, '/')
    ensures k <= |s|
  {
  }

  lemma StartOf(b: seq<char>, s: nat, t: string)
    requires IsString(b, s, t)
    ensures s + |t| < |b| && (b[s] == '/' <==> t != "" && t[0] == '/')
  {
    if t != "" { assert b[s + 0] == t[0]; }
  }

  /** A NUL in place of the slash leaves the segment. */
  lemma CutOff(was: seq<char>, now: seq<char>, path: nat, t: string, k: nat)
    requires IsString(was, path, t) && k <= |t|
    requires |now| == |was| && (if k < |t| then now == was[path + k := NUL] else now == was)
    ensures IsString(now, path, t[..k])
  {
    forall i {:trigger t[..k][i]} | 0 <= i < k ensures now[path + i] == t[..k][i] {
      assert was[path + i] == t[i];
    }
  }

  /** What stands behind the segment is the rest of the path again. */
  lemma PutBack(was: seq<char>, now: seq<char>, path: nat, t: string, k: nat)
    requires IsString(was, path, t) && k < |t| && t[k] == '/'
    requires |now| == |was| && now[path + k] == '/' && forall i | path + k < i < |was| :: now[i] == was[i]
    ensures IsString(now, path + k, t[k..])
  {
    var r := t[k..];
    forall i {:trigger r[i]} | 0 <= i < |r| ensures now[path + k + i] == r[i] {
      assert r[i] == t[k + i];
    }
    assert now[path + k + |r|] == was[path + |t|];
  }

  /** json_pointer_get */
  method JsonPointerGet(obj: JValue, path: string) returns (r: Result)
    requires NUL !in path
    ensures r == Get(obj, path)
  {
    if obj == JNull { return Error(EINVAL); }
    if path == "" { return Found(obj); }
    var pathCopy := StrDup(path);
    r := GetRecursive(obj, pathCopy, 0, path);
  }

  /** strdup */
  method StrDup(path: string) returns (b: array<char>)
    requires NUL !in path
    ensures fresh(b) && b[..] == path + [NUL] && IsString(b[..], 0, path)
  {
    b := new char[|path| + 1](i requires 0 <= i < |path| + 1 => if i < |path| then path[i] else NUL);
  }

  /** json_pointer_set_single_path: the parent as it is afterwards, if the status is 0. */
  method SetSinglePath(parent: JValue, path: string, value: JValue) returns (r: SetResult)
    ensures r == SetSingle(parent, path, value)
  {
    if parent.JArray? {
      if |path| == 1 && path[0] == '-' { return Done(JArray(parent.elems + [value])); }
      var idx := IsValidIndex(|parent.elems|, path);
      match idx {
        case Invalid(e) => return Failed(e);
        case Valid(i) => return Done(JArray(parent.elems[i := value]));
      }
    }
    if parent.JObject? { return Done(JObject(AddMember(parent.members, path, value))); }
    r := Failed(ENOENT);
  }

  /** strrchr(path, '/') */
  method LastSlashOf(path: string) returns (k: nat)
    requires path != "" && path[0] == '/'
    ensures k == LastSlash(path)
  {
    k := |path| - 1;
    assert path[..|path|] == path;
    while path[k] != '/'
      invariant 0 <= k < |path| && LastSlash(path) == LastSlash(path[..k + 1])
      decreases k
    {
      assert path[..k + 1][..k] == path[..k];
      k := k - 1;
    }
  }

  /** json_pointer_set: the tree after it.  The last token is used as it stands. */
  method JsonPointerSetPath(root: JValue, path: string, value: JValue) returns (r: SetResult)
    requires NUL !in path
    ensures r == Set(root, path, value)
  {
    hide SetSingle, GetPath, IsString, LastSlash, Tokens, Update, Follow;
    if path == "" { return Done(value); }
    if path[0] != '/' { return Failed(EINVAL); }
    var endp := LastSlashOf(path);
    if endp == 0 {
      r := SetSinglePath(root, path[1..], value);
      return;
    }
    var pathCopy := StrDup(path);
    ghost var was := pathCopy[..];
    Poke(pathCopy, endp, NUL);
    CutOff(was, pathCopy[..], 0, path, endp);
    var found := GetRecursive(root, pathCopy, 0, path[..endp]);
    if found.Error? { return Failed(found.errno); }
    var node := SetSinglePath(found.v, path[endp + 1..], value);
    if node.Failed? { return node; }
    GetIsFold(root, path[..endp]);
    r := Done(Update(root, Tokens(path[..endp]), node.root));
  }
}
