/** json_pointer_set as a function on trees, and what json_pointer_get sees afterwards. */
module JsonPointerSet {
  import opened Decimals
  import opened JsonValue
  import opened JsonPointer
  import opened Sequences

  // ------------------------------------------------------------ places in a tree

  function Kids(obj: JValue): nat {
    if obj.JArray? then |obj.elems| else if obj.JObject? then |obj.members| else 0
  }

  function Kid(obj: JValue, i: nat): JValue
    requires i < Kids(obj)
  {
    if obj.JArray? then obj.elems[i] else obj.members[i].val
  }

  function WithKid(obj: JValue, i: nat, v: JValue): (r: JValue)
    requires i < Kids(obj)
    ensures Kids(r) == Kids(obj) && r.JArray? == obj.JArray? && r.JObject? == obj.JObject?
    ensures forall j | 0 <= j < Kids(r) :: Kid(r, j) == if j == i then v else Kid(obj, j)
  {
    if obj.JArray? then JArray(obj.elems[i := v])
    else JObject(obj.members[i := obj.members[i].(val := v)])
  }

  /** The child that a token selects when it is read. */
  function ChildAt(obj: JValue, token: string): (r: Option<nat>)
    ensures r.Some? ==> r.value < Kids(obj)
  {
    if obj.JArray? then
      match ValidIndex(|obj.elems|, token)
      case Invalid(_) => None
      case Valid(i) => if obj.elems[i] == JNull then None else Some(i)
    else if obj.JObject? && FindKey(obj.members, Unescape(token)) < |obj.members| then
      Some(FindKey(obj.members, Unescape(token)))
    else None
  }

  lemma StepIsChild(obj: JValue, token: string)
    ensures Step(obj, token).Found? <==> ChildAt(obj, token).Some?
    ensures ChildAt(obj, token).Some? ==> Step(obj, token) == Found(Kid(obj, ChildAt(obj, token).value))
  {
  }

  /** Replacing a child by a value that is not null leads every token where it led before. */
  lemma SameChild(obj: JValue, i: nat, v: JValue, token: string)
    requires i < Kids(obj) && v != JNull && Kid(obj, i) != JNull
    ensures ChildAt(WithKid(obj, i, v), token) == ChildAt(obj, token)
  {
    if obj.JObject? { SameKeys(obj.members, i, v, Unescape(token)); }
  }

  lemma {:induction false} SameKeys(ms: seq<Member>, i: nat, v: JValue, key: string)
    requires i < |ms|
    ensures FindKey(ms[i := ms[i].(val := v)], key) == FindKey(ms, key)
    decreases i
  {
    if i > 0 {
      SameKeys(ms[1..], i - 1, v, key);
      assert ms[i := ms[i].(val := v)][1..] == ms[1..][i - 1 := ms[1..][i - 1].(val := v)];
    } else {
      assert ms[i := ms[i].(val := v)][1..] == ms[1..];
    }
  }

  /** The tree with another node where the tokens lead. */
  function Update(root: JValue, tokens: seq<string>, node: JValue): JValue
    requires Follow(root, tokens).Found?
    decreases |tokens|
  {
    if tokens == [] then node
    else
      StepIsChild(root, tokens[0]);
      var i := ChildAt(root, tokens[0]).value;
      WithKid(root, i, Update(Kid(root, i), tokens[1..], node))
  }

  lemma {:induction false} UpdateLeads(root: JValue, tokens: seq<string>, node: JValue)
    requires Follow(root, tokens).Found? && node != JNull && (tokens == [] ==> root != JNull)
    requires Follow(root, tokens).v != JNull
    ensures Follow(Update(root, tokens, node), tokens) == Found(node) && Update(root, tokens, node) != JNull
    decreases |tokens|
  {
    hide Step, ChildAt, Unescape;
    if tokens != [] {
      StepIsChild(root, tokens[0]);
      var i := ChildAt(root, tokens[0]).value;
      var kid := Kid(root, i);
      FollowNotNull(kid, tokens[1..]);
      UpdateLeads(kid, tokens[1..], node);
      var sub := Update(kid, tokens[1..], node);
      SameChild(root, i, sub, tokens[0]);
      StepIsChild(WithKid(root, i, sub), tokens[0]);
    }
  }

  /** Nothing but null is at null. */
  lemma FollowNotNull(obj: JValue, tokens: seq<string>)
    requires Follow(obj, tokens).Found? && Follow(obj, tokens).v != JNull
    ensures obj != JNull
  {
    hide Unescape;
  }

  // ------------------------------------------------------------ set

  datatype SetResult = Done(root: JValue) | Failed(errno: Errno)

  /** json_pointer_set_single_path: what becomes of the parent. */
  function SetSingle(parent: JValue, token: string, v: JValue): SetResult {
    if parent.JArray? then
      if token == "-" then Done(JArray(parent.elems + [v]))
      else
        match ValidIndex(|parent.elems|, token)
        case Invalid(e) => Failed(e)
        case Valid(i) => Done(JArray(parent.elems[i := v]))
    else if parent.JObject? then Done(JObject(AddMember(parent.members, token, v)))
    else Failed(ENOENT)
  }

  function LastSlash(path: string): (k: nat)
    requires path != "" && path[0] == '/'
    ensures k < |path| && path[k] == '/' && '/' !in path[k + 1..]
  {
    if path[|path| - 1] == '/' then |path| - 1
    else
      var k := LastSlash(path[..|path| - 1]);
      assert path[k + 1..] == path[..|path| - 1][k + 1..] + [path[|path| - 1]];
      k
  }

  /** json_pointer_set on a tree */
  function Set(root: JValue, path: string, v: JValue): SetResult {
    if path == "" then Done(v)
    else if path[0] != '/' then Failed(EINVAL)
    else
      var k := LastSlash(path);
      var token := path[k + 1..];
      if k == 0 then SetSingle(root, token, v)
      else
        match GetPath(root, path[..k])
        case Error(e) => Failed(e)
        case Found(parent) =>
          match SetSingle(parent, token, v)
          case Failed(e) => Failed(e)
          case Done(node) =>
            GetIsFold(root, path[..k]);
            Done(Update(root, Tokens(path[..k]), node))
  }

  /** json_pointer_get */
  function Get(root: JValue, path: string): Result {
    if root == JNull then Error(EINVAL)
    else if path == "" then Found(root)
    else GetPath(root, path)
  }

  /** What a get does before it looks up anything. */
  lemma GetErrors(root: JValue, path: string)
    ensures root == JNull || (path != "" && path[0] != '/') ==> Get(root, path) == Error(EINVAL)
    ensures root != JNull && path == "" ==> Get(root, path) == Found(root)
    ensures root != JNull && path != "" && path[0] == '/' ==> Get(root, path) == Follow(root, Tokens(path))
  {
    if path != "" && path[0] == '/' { GetIsFold(root, path); }
  }

  lemma {:induction false} JoinAppend(tokens: seq<string>, token: string)
    ensures Join(tokens + [token]) == Join(tokens) + "/" + token
  {
    if tokens == [] {
      assert [] + [token] == [token] && [token][1..] == [];
    } else {
      JoinAppend(tokens[1..], token);
      assert (tokens + [token])[1..] == tokens[1..] + [token];
    }
  }

  lemma TokensSplit(path: string, k: nat)
    requires k < |path| && path[0] == '/' && path[k] == '/' && '/' !in path[k + 1..]
    ensures Tokens(path) == Tokens(path[..k]) + [path[k + 1..]]
  {
    hide Tokens, Join;
    var (before, token) := (path[..k], path[k + 1..]);
    JoinOfTokens(before);
    JoinAppend(Tokens(before), token);
    assert path == before + "/" + token;
    TokensOfJoin(Tokens(before) + [token]);
  }

  /** Where a successful set has put its value: the parent, and the last token as it stands. */
  function Parent(root: JValue, path: string): Result
    requires path != "" && path[0] == '/'
  {
    var k := LastSlash(path);
    if k == 0 then Found(root) else GetPath(root, path[..k])
  }

  function LastToken(path: string): string
    requires path != "" && path[0] == '/'
  {
    path[LastSlash(path) + 1..]
  }

  /** What a get with the last token finds in the parent after the set. */
  function SeenAfter(parent: JValue, token: string, v: JValue): Result {
    if parent.JArray? then
      if token == "-" then Error(EINVAL) else if v == JNull then Error(ENOENT) else Found(v)
    else if !HasEscape(token) then Found(v)
    else ObjectGet(parent, Unescape(token))
  }

  lemma AfterSingle(parent: JValue, token: string, v: JValue)
    requires SetSingle(parent, token, v).Done?
    ensures Step(SetSingle(parent, token, v).root, token) == SeenAfter(parent, token, v)
    ensures SetSingle(parent, token, v).root != JNull && parent != JNull
  {
    hide Unescape, HasEscape;
    UnescapeFixes(token);
    if parent.JObject? { MemberAfterAdd(parent.members, token, v, Unescape(token)); }
  }

  lemma {:induction false} MemberAfterAdd(ms: seq<Member>, key: string, v: JValue, k: string)
    ensures ObjectGet(JObject(AddMember(ms, key, v)), k)
            == if k == key then Found(v) else ObjectGet(JObject(ms), k)
  {
    var i := FindKey(ms, key);
    if i < |ms| {
      assert ms[i := JsonValue.Member(key, v)] == ms[i := ms[i].(val := v)];
      SameKeys(ms, i, v, k);
    } else {
      FindInLonger(ms, JsonValue.Member(key, v), k);
    }
  }

  lemma {:induction false} FindInLonger(ms: seq<Member>, m: Member, k: string)
    ensures FindKey(ms + [m], k) == if FindKey(ms, k) < |ms| then FindKey(ms, k) else if m.key == k then |ms| else |ms| + 1
  {
    if ms != [] {
      assert (ms + [m])[1..] == ms[1..] + [m];
      FindInLonger(ms[1..], m, k);
    } else {
      assert ms + [m] == [m];
      assert FindKey([m][1..], k) == 0;
    }
  }

  lemma {:induction false} FollowMore(obj: JValue, a: seq<string>, b: seq<string>)
    ensures Follow(obj, a + b) == (match Follow(obj, a) case Error(e) => Error(e) case Found(v) => Follow(v, b))
    decreases |a|
  {
    hide Step;
    if a == [] {
      assert a + b == b;
    } else {
      assert (a + b)[1..] == a[1..] + b;
      var s := Step(obj, a[0]);
      if s.Found? { FollowMore(s.v, a[1..], b); }
    }
  }

  lemma FollowOne(obj: JValue, token: string)
    ensures Follow(obj, [token]) == Step(obj, token)
  {
    hide Step;
    assert [token][1..] == [];
    var s := Step(obj, token);
    if s.Found? { assert Follow(s.v, []) == Found(s.v); }
  }

  /** Get after set: what is found under the same pointer. */
  lemma GetAfterSet(root: JValue, path: string, v: JValue)
    requires path != "" && Set(root, path, v).Done?
    ensures path[0] == '/' && Parent(root, path).Found?
    ensures Get(Set(root, path, v).root, path) == SeenAfter(Parent(root, path).v, LastToken(path), v)
  {
    hide Step, SeenAfter, SetSingle, LastSlash, Tokens;
    var k := LastSlash(path);
    var token := path[k + 1..];
    var now := Set(root, path, v).root;
    TokensSplit(path, k);
    GetIsFold(now, path);
    if k == 0 {
      AfterSingle(root, token, v);
      NoTokens();
      assert path[..0] == "" && [] + [token] == [token];
      FollowOne(now, token);
    } else {
      var before := Tokens(path[..k]);
      GetIsFold(root, path[..k]);
      var parent := GetPath(root, path[..k]).v;
      var node := SetSingle(parent, token, v).root;
      AfterSingle(parent, token, v);
      SomeTokens(path[..k]);
      UpdateLeads(root, before, node);
      FollowMore(now, before, [token]);
      FollowOne(node, token);
    }
  }

  lemma SomeTokens(path: string)
    requires path != ""
    ensures Tokens(path) != []
  {
  }

  /** The value is found again exactly if it is not null and not appended to an array, and, in
      an object, its token has no escape sequence or the unescaped key had that value anyway. */
  lemma SetIsFound(root: JValue, path: string, v: JValue)
    requires Set(root, path, v).Done?
    ensures Get(Set(root, path, v).root, path) == Found(v) <==>
            if path == "" then v != JNull
            else if Parent(root, path).v.JArray? then v != JNull && LastToken(path) != "-"
            else !HasEscape(LastToken(path)) || ObjectGet(Parent(root, path).v, Unescape(LastToken(path))) == Found(v)
    ensures path != "" ==> path[0] == '/' && Parent(root, path).Found?
  {
    hide Unescape, HasEscape, Parent, LastToken, Set;
    if path != "" {
      GetAfterSet(root, path, v);
    } else {
      SetWhole(root, v);
    }
  }

  lemma SetWhole(root: JValue, v: JValue)
    ensures Set(root, "", v) == Done(v)
  {
  }

  // ------------------------------------------------------------ when a set succeeds, and what it does

  /** No C array is longer than a long can count. */
  predicate Counted(parent: JValue) { parent.JArray? ==> |parent.elems| <= LONG_MAX }

  /** The token names a place in the parent: any key of an object; in an array the end, or an
      element by its decimal number, the empty token being number 0. */
  ghost predicate NamesPlace(parent: JValue, token: string) {
    || parent.JObject?
    || (parent.JArray? && (token == "-" || exists i: nat | i < |parent.elems| :: NamesElement(token, i)))
  }

  predicate NamesElement(token: string, i: nat) { token == Digits(i) || (token == "" && i == 0) }

  lemma SingleSucceeds(parent: JValue, token: string, v: JValue)
    requires Counted(parent)
    ensures SetSingle(parent, token, v).Done? <==> NamesPlace(parent, token)
  {
    hide Digits;
    if parent.JArray? && token != "-" {
      var r := ValidIndex(|parent.elems|, token);
      if r.Valid? {
        IndexMeans(|parent.elems|, token, r.i);
        assert NamesElement(token, r.i);
      }
      forall i: nat | i < |parent.elems| && NamesElement(token, i) ensures r == Valid(i) {
        IndexMeans(|parent.elems|, token, i);
      }
    }
  }

  /** A set succeeds exactly if its pointer is empty, or starts with a slash, all tokens but
      the last lead to an object or an array, and the last one names a place in it. */
  lemma SetSucceeds(root: JValue, path: string, v: JValue)
    requires path != "" && path[0] == '/' && Parent(root, path).Found? ==> Counted(Parent(root, path).v)
    ensures Set(root, path, v).Done? <==>
            || path == ""
            || (path[0] == '/' && Parent(root, path).Found? && NamesPlace(Parent(root, path).v, LastToken(path)))
  {
    hide SetSingle, NamesPlace, GetPath, Counted;
    if path != "" && path[0] == '/' && Parent(root, path).Found? {
      SingleSucceeds(Parent(root, path).v, LastToken(path), v);
    }
  }

  /** A set fails with EINVAL for a pointer without a slash in front and for a last token that
      can be no index of an array, with ENOENT for an index behind the end and at a scalar, and
      otherwise with the error of the get that looks for the parent. */
  lemma SetErrors(root: JValue, path: string, v: JValue)
    requires path != "" && path[0] == '/' && Parent(root, path).Found? ==> Counted(Parent(root, path).v)
    ensures Set(root, path, v).Failed? ==> path != ""
    ensures path != "" && path[0] != '/' ==> Set(root, path, v) == Failed(EINVAL)
    ensures path != "" && path[0] == '/' && Set(root, path, v).Failed? ==>
              Set(root, path, v).errno ==
              match Parent(root, path)
              case Error(e) => e
              case Found(parent) => if parent.JArray? && !IndexText(LastToken(path)) then EINVAL else ENOENT
  {
    hide GetPath;
    if path != "" && path[0] == '/' && Parent(root, path).Found? && Parent(root, path).v.JArray? {
      IndexErrors(|Parent(root, path).v.elems|, LastToken(path));
    }
  }

  /** w is the parent with the value put into the place that the token names. */
  ghost predicate Placed(parent: JValue, token: string, v: JValue, w: JValue) {
    if parent.JArray? then
      && w.JArray?
      && if token == "-" then w.elems == parent.elems + [v]
         else exists i: nat | i < |parent.elems| :: NamesElement(token, i) && w.elems == parent.elems[i := v]
    else parent.JObject? && w.JObject? && MemberPlaced(parent.members, token, v, w.members)
  }

  /** A key that is there keeps its place, a new one goes to the end. */
  ghost predicate MemberPlaced(ms: seq<Member>, key: string, v: JValue, r: seq<Member>) {
    if forall i | 0 <= i < |ms| :: ms[i].key != key then r == ms + [JsonValue.Member(key, v)]
    else exists i: nat | i < |ms| :: ms[i].key == key && key !in Keys(ms[..i]) && r == ms[i := JsonValue.Member(key, v)]
  }

  function Keys(ms: seq<Member>): seq<string> { seq(|ms|, i requires 0 <= i < |ms| => ms[i].key) }

  lemma AddPlaces(ms: seq<Member>, key: string, v: JValue)
    ensures MemberPlaced(ms, key, v, AddMember(ms, key, v))
  {
    var i := FindKey(ms, key);
    if i < |ms| { assert key !in Keys(ms[..i]); }
  }

  lemma SinglePlaces(parent: JValue, token: string, v: JValue)
    requires Counted(parent) && SetSingle(parent, token, v).Done?
    ensures Placed(parent, token, v, SetSingle(parent, token, v).root)
  {
    hide Digits, AddMember, MemberPlaced;
    if parent.JArray? {
      if token != "-" {
        var i := ValidIndex(|parent.elems|, token).i;
        IndexMeans(|parent.elems|, token, i);
        assert NamesElement(token, i);
      }
    } else {
      AddPlaces(parent.members, token, v);
    }
  }

  /** After a set the same tokens lead to the parent, with the value in its place. */
  lemma ParentAfterSet(root: JValue, path: string, v: JValue)
    requires path != "" && Set(root, path, v).Done? && Counted(Parent(root, path).v)
    ensures var now := Parent(Set(root, path, v).root, path);
            now.Found? && Placed(Parent(root, path).v, LastToken(path), v, now.v)
  {
    hide Step, SetSingle, LastSlash, Tokens, Placed, Counted;
    var k := LastSlash(path);
    var token := path[k + 1..];
    var parent := Parent(root, path).v;
    SinglePlaces(parent, token, v);
    if k > 0 {
      AfterSingle(parent, token, v);
      GetIsFold(root, path[..k]);
      SomeTokens(path[..k]);
      UpdateLeads(root, Tokens(path[..k]), SetSingle(parent, token, v).root);
      GetIsFold(Set(root, path, v).root, path[..k]);
    }
  }

  /** A set under "-" appends to the array, and the value is found under its number. */
  lemma DashAppends(root: JValue, path: string, v: JValue)
    requires path != "" && path[0] == '/' && Parent(root, path).Found? && Parent(root, path).v.JArray?
    requires LastToken(path) == "-" && |Parent(root, path).v.elems| < LONG_MAX
    ensures Set(root, path, v).Done?
    ensures var (now, elems) := (Set(root, path, v).root, Parent(root, path).v.elems);
            && Parent(now, path) == Found(JArray(elems + [v]))
            && (v != JNull ==> Get(now, path[..|path| - 1] + Digits(|elems|)) == Found(v))
  {
    hide Step, SetSingle, Set, Parent, LastToken, Get, Digits;
    var elems := Parent(root, path).v.elems;
    SetSucceeds(root, path, v);
    ParentAfterSet(root, path, v);
    var now := Set(root, path, v).root;
    NumberLeads(now, path, |elems|);
  }

  /** A number in place of "-" leads to that element. */
  lemma NumberLeads(root: JValue, path: string, n: nat)
    requires path != "" && path[0] == '/' && LastToken(path) == "-"
    requires Parent(root, path).Found? && Parent(root, path).v.JArray? && n < |Parent(root, path).v.elems| <= LONG_MAX
    ensures var e := Parent(root, path).v.elems[n];
            e != JNull ==> Get(root, path[..|path| - 1] + Digits(n)) == Found(e)
  {
    hide Step, Digits, Tokens;
    var (k, parent) := (LastSlash(path), Parent(root, path).v);
    var p := path[..|path| - 1] + Digits(n);
    assert path[..|path| - 1] == path[..k + 1];
    DigitsHaveNoSlash(n);
    assert p[k] == '/' && p[k + 1..] == Digits(n) && p[..k] == path[..k];
    TokensSplit(p, k);
    GetIsFold(root, p);
    NumberStep(parent, n);
    if k == 0 {
      NoTokens();
      assert p[..0] == "" && [] + [Digits(n)] == [Digits(n)];
      FollowOne(root, Digits(n));
    } else {
      GetIsFold(root, path[..k]);
      FollowMore(root, Tokens(path[..k]), [Digits(n)]);
      FollowOne(parent, Digits(n));
      SomeTokens(path[..k]);
      NothingAtNull(root, Tokens(path[..k]));
    }
  }

  lemma DigitsHaveNoSlash(n: nat)
    ensures '/' !in Digits(n)
  {
    hide Digits;
    DigitsValue(n);
  }

  lemma NumberStep(parent: JValue, n: nat)
    requires parent.JArray? && n < |parent.elems| <= LONG_MAX
    ensures Step(parent, Digits(n)) == if parent.elems[n] == JNull then Error(ENOENT) else Found(parent.elems[n])
  {
    hide Digits;
    IndexMeans(|parent.elems|, Digits(n), n);
  }

  // ------------------------------------------------------------ what a set leaves alone

  /** The place that a set with this last token changes. */
  function Target(parent: JValue, token: string): nat {
    if parent.JArray? then
      if token == "-" then |parent.elems|
      else
        match ValidIndex(|parent.elems|, token)
        case Invalid(_) => |parent.elems|
        case Valid(i) => i
    else if parent.JObject? then FindKey(parent.members, token)
    else 0
  }

  /** b leads away from the place that a set at init and then last changes. */
  predicate Diverges(obj: JValue, init: seq<string>, last: string, b: seq<string>)
    decreases |init|
  {
    && b != [] && ChildAt(obj, b[0]).Some?
    && var j := ChildAt(obj, b[0]).value;
       if init == [] then j != Target(obj, last)
       else
         ChildAt(obj, init[0]).Some? &&
         (j != ChildAt(obj, init[0]).value || Diverges(Kid(obj, j), init[1..], last, b[1..]))
  }

  lemma OtherChild(parent: JValue, token: string, v: JValue, t: string)
    requires SetSingle(parent, token, v).Done? && ChildAt(parent, t).Some? && ChildAt(parent, t).value != Target(parent, token)
    ensures Step(SetSingle(parent, token, v).root, t) == Step(parent, t)
  {
    hide Unescape;
    if parent.JObject? {
      MemberAfterAdd(parent.members, token, v, Unescape(t));
    } else {
      StillValid(|parent.elems|, t);
    }
  }

  lemma StillValid(length: nat, t: string)
    ensures ValidIndex(length, t).Valid? ==> ValidIndex(length + 1, t) == ValidIndex(length, t)
  {
  }

  lemma {:induction false} UpdateElsewhere(obj: JValue, init: seq<string>, last: string, v: JValue, b: seq<string>)
    requires Follow(obj, init).Found? && SetSingle(Follow(obj, init).v, last, v).Done?
    requires Diverges(obj, init, last, b)
    ensures Follow(Update(obj, init, SetSingle(Follow(obj, init).v, last, v).root), b) == Follow(obj, b)
    decreases |init|
  {
    hide Step, ChildAt, SetSingle, Unescape, Target, FindKey, ValidIndex;
    var node := SetSingle(Follow(obj, init).v, last, v).root;
    if init == [] {
      OtherChild(obj, last, v, b[0]);
    } else {
      StepIsChild(obj, init[0]);
      StepIsChild(obj, b[0]);
      var (i, j) := (ChildAt(obj, init[0]).value, ChildAt(obj, b[0]).value);
      var kid := Kid(obj, i);
      AfterSingle(Follow(obj, init).v, last, v);
      FollowNotNull(kid, init[1..]);
      UpdateLeads(kid, init[1..], node);
      var sub := Update(kid, init[1..], node);
      SameChild(obj, i, sub, b[0]);
      StepIsChild(WithKid(obj, i, sub), b[0]);
      if i == j { UpdateElsewhere(kid, init[1..], last, v, b[1..]); }
    }
  }

  /** A set changes nothing that other pointers lead to. */
  lemma SetElsewhere(root: JValue, path: string, v: JValue, other: string)
    requires path != "" && other != "" && other[0] == '/' && Set(root, path, v).Done?
    requires var k := LastSlash(path);
             path[0] == '/' && Diverges(root, Tokens(path[..k]), path[k + 1..], Tokens(other))
    ensures Get(Set(root, path, v).root, other) == Get(root, other)
  {
    hide Step, SetSingle, LastSlash, Tokens, Diverges;
    var k := LastSlash(path);
    var (before, token) := (Tokens(path[..k]), path[k + 1..]);
    var now := Set(root, path, v).root;
    GetIsFold(now, other);
    GetIsFold(root, other);
    if k == 0 {
      NoTokens();
      assert path[..0] == "";
      AfterSingle(root, token, v);
      assert Follow(root, []) == Found(root);
      UpdateElsewhere(root, before, token, v, Tokens(other));
    } else {
      GetIsFold(root, path[..k]);
      var parent := GetPath(root, path[..k]).v;
      AfterSingle(parent, token, v);
      SomeTokens(path[..k]);
      UpdateLeads(root, before, SetSingle(parent, token, v).root);
      NothingAtNull(root, before);
      UpdateElsewhere(root, before, token, v, Tokens(other));
    }
  }

  lemma NothingAtNull(root: JValue, tokens: seq<string>)
    requires tokens != [] && Follow(root, tokens).Found?
    ensures root != JNull
  {
    hide Unescape;
  }
}
