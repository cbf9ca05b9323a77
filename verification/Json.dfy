/** JSON values, the equality constraints compare them with (`json_eq` in `lib/src/class_constraints.rs`),
    and JSON pointers (RFC 6901). */
module JsonValues {
  import opened Basics
  import opened Text

  /** A number keeps whether it was written as an integer; its value is a real. */
  datatype Number = Int(i: int) | Float(r: real) {
    function Value(): real {
      match this
      case Int(i) => i as real
      case Float(r) => r
    }
  }

  datatype Json =
    | Null
    | Bool(b: bool)
    | Num(n: Number)
    | Str(s: string)
    | Arr(items: seq<Json>)
    | Obj(fields: map<string, Json>)

  // ---- Equality -----------------------------------------------------------------------------

  const ATOMIC_PREFIX := "atomic:"
  const DID_AD_PREFIX := "did:ad:"

  /** `canonicalize_scheme`: the legacy spelling of an identifier becomes the current one. */
  function CanonicalScheme(raw: string): string {
    if DID_AD_PREFIX <= raw then ATOMIC_PREFIX + raw[|DID_AD_PREFIX|..] else raw
  }

  /** An identifier in the legacy scheme is spelled in the current one, and no other text changes. */
  lemma CanonicalSchemeMeans(raw: string)
    ensures CanonicalScheme("did:ad:" + raw) == "atomic:" + raw
    ensures (forall tail :: raw != "did:ad:" + tail) ==> CanonicalScheme(raw) == raw
  {
    assert ("did:ad:" + raw)[|DID_AD_PREFIX|..] == raw;
    if DID_AD_PREFIX <= raw { assert raw == "did:ad:" + raw[|DID_AD_PREFIX|..]; }
  }

  lemma CanonicalSchemeIdempotent(raw: string)
    ensures CanonicalScheme(CanonicalScheme(raw)) == CanonicalScheme(raw)
  {
    assert CanonicalScheme(raw) != raw ==> CanonicalScheme(raw)[0] == 'a';
  }

  function CanonicalJson(v: Json): Json {
    match v
    case Str(s) => Str(CanonicalScheme(s))
    case _ => v
  }

  /** `json_eq`. */
  predicate JsonEq(a: Json, b: Json)
    decreases a
  {
    match (a, b)
    case (Num(x), Num(y)) => x.Value() == y.Value()
    case (Arr(x), Arr(y)) => |x| == |y| && forall i | 0 <= i < |x| :: JsonEq(x[i], y[i])
    case (Obj(x), Obj(y)) => |x| == |y| && forall k | k in x :: k in y && JsonEq(x[k], y[k])
    case _ => CanonicalJson(a) == CanonicalJson(b)
  }

  lemma {:induction false} JsonEqReflexive(a: Json)
    ensures JsonEq(a, a)
  {
    match a
    case Arr(x) => forall i | 0 <= i < |x| ensures JsonEq(x[i], x[i]) { JsonEqReflexive(x[i]); }
    case Obj(x) => forall k | k in x ensures JsonEq(x[k], x[k]) { JsonEqReflexive(x[k]); }
    case _ =>
  }

  lemma SubsetOfEqualSize<T>(a: set<T>, b: set<T>)
    requires a <= b && |a| == |b|
    ensures a == b
  {
    assert b == a + (b - a);
  }

  /** Two equal objects have the same keys, though only one side is searched. */
  lemma EqualObjectsSameKeys(x: map<string, Json>, y: map<string, Json>)
    requires |x| == |y| && forall k | k in x :: k in y
    ensures x.Keys == y.Keys
  {
    SubsetOfEqualSize(x.Keys, y.Keys);
  }

  lemma {:induction false} JsonEqSymmetric(a: Json, b: Json)
    requires JsonEq(a, b)
    ensures JsonEq(b, a)
    decreases a
  {
    match (a, b)
    case (Arr(x), Arr(y)) => forall i | 0 <= i < |x| ensures JsonEq(y[i], x[i]) { JsonEqSymmetric(x[i], y[i]); }
    case (Obj(x), Obj(y)) =>
      EqualObjectsSameKeys(x, y);
      forall k | k in y ensures k in x && JsonEq(y[k], x[k]) {
        assert k in x;
        JsonEqSymmetric(x[k], y[k]);
      }
    case _ =>
  }

  lemma {:induction false} JsonEqTransitive(a: Json, b: Json, c: Json)
    requires JsonEq(a, b) && JsonEq(b, c)
    ensures JsonEq(a, c)
    decreases a
  {
    match (a, b, c)
    case (Arr(x), Arr(y), Arr(z)) =>
      forall i | 0 <= i < |x| ensures JsonEq(x[i], z[i]) { JsonEqTransitive(x[i], y[i], z[i]); }
    case (Obj(x), Obj(y), Obj(z)) =>
      forall k | k in x ensures k in z && JsonEq(x[k], z[k]) { JsonEqTransitive(x[k], y[k], z[k]); }
    case _ =>
  }

  // ---- Array indexes ------------------------------------------------------------------------

  /** An array index in a JSON pointer: decimal digits without a leading zero (section 4 of RFC 6901). */
  function ParseIndex(token: string): Option<nat> {
    if token == "" || (token[0] == '0' && |token| > 1) then None else DigitsValue(token)
  }

  lemma IndexRoundTrip(n: nat)
    ensures ParseIndex(NatToString(n)) == Some(n)
  {
    DigitsRoundTrip(n);
  }

  /** Only the printed form of a number is an index. */
  lemma {:induction false} OnlyPrintedIndex(token: string, n: nat)
    requires token != "" && (token[0] == '0' ==> |token| == 1) && DigitsValue(token) == Some(n)
    ensures token == NatToString(n)
    decreases |token|
  {
    var front := token[..|token| - 1];
    assert token == front + [token[|token| - 1]];
    if front != "" {
      OnlyPrintedIndex(front, DigitsValue(front).value);
    } else {
      assert DigitsValue(front) == Some(0);
    }
  }

  lemma IndexIff(token: string, n: nat)
    ensures ParseIndex(token) == Some(n) <==> token == NatToString(n)
  {
    IndexRoundTrip(n);
    if ParseIndex(token) == Some(n) { OnlyPrintedIndex(token, n); }
  }

  // ---- JSON pointers ------------------------------------------------------------------------

  function Replace(s: string, c: char, with: string): string {
    if s == [] then [] else (if s[0] == c then with else [s[0]]) + Replace(s[1..], c, with)
  }

  function Escape(s: string): string {
    Replace(Replace(s, '~', "~0"), '/', "~1")
  }

  /** `pointer_of`. */
  function PointerOf(path: seq<string>): string {
    if path == [] then "" else "/" + Escape(path[0]) + PointerOf(path[1..])
  }

  /** Replaces every `~d`, left to right, by `c`. */
  function Unreplace(s: string, d: char, c: char): string {
    if |s| < 2 then s
    else if s[0] == '~' && s[1] == d then [c] + Unreplace(s[2..], d, c)
    else [s[0]] + Unreplace(s[1..], d, c)
  }

  /** Section 4 of RFC 6901: first `~1`, then `~0`. */
  function Unescape(s: string): string {
    Unreplace(Unreplace(s, '1', '/'), '0', '~')
  }

  function NextSlash(s: string): (n: nat)
    ensures n <= |s|
  {
    if s == [] || s[0] == '/' then 0 else 1 + NextSlash(s[1..])
  }

  /** The reference tokens of a pointer, or nothing when it does not start with a slash. */
  function Tokens(pointer: string): Option<seq<string>>
    decreases |pointer|
  {
    if pointer == "" then Some([])
    else if pointer[0] != '/' then None
    else
      var n := NextSlash(pointer[1..]);
      match Tokens(pointer[1 + n..])
      case None => None
      case Some(rest) => Some([Unescape(pointer[1..1 + n])] + rest)
  }

  /** The child of `v` a token names. */
  function Child(v: Json, token: string): Option<Json> {
    match v
    case Obj(fields) => if token in fields then Some(fields[token]) else None
    case Arr(items) =>
      (match ParseIndex(token)
       case Some(i) => if i < |items| then Some(items[i]) else None
       case None => None)
    case _ => None
  }

  function Descend(v: Json, path: seq<string>): Option<Json> {
    if path == [] then Some(v)
    else match Child(v, path[0])
      case None => None
      case Some(child) => Descend(child, path[1..])
  }

  /** The value a pointer resolves to. */
  function Resolve(v: Json, pointer: string): Option<Json> {
    match Tokens(pointer)
    case None => None
    case Some(path) => Descend(v, path)
  }

  lemma {:induction false} EscapeSteps(s: string)
    ensures s == [] ==> Escape(s) == []
    ensures s != [] ==> Escape(s) == (if s[0] == '~' then "~0" else if s[0] == '/' then "~1" else [s[0]]) + Escape(s[1..])
  {
    if s != [] {
      var head := if s[0] == '~' then "~0" else [s[0]];
      var tail := Replace(s[1..], '~', "~0");
      var once := Replace(s, '~', "~0");
      assert once == head + tail;
      if s[0] == '~' {
        assert once[0] == '~' && once[1..][0] == '0' && once[1..][1..] == tail;
        assert Replace(once, '/', "~1") == "~" + Replace(once[1..], '/', "~1");
        assert Replace(once[1..], '/', "~1") == "0" + Replace(tail, '/', "~1");
      } else {
        assert once[1..] == tail;
      }
    }
  }

  lemma {:induction false} EscapeHasNoSlash(s: string)
    ensures '/' !in Escape(s)
  {
    EscapeSteps(s);
    if s != [] { EscapeHasNoSlash(s[1..]); }
  }

  /** Undoing `~1` leaves the string with only its tildes escaped. */
  lemma {:induction false} UnescapeFirst(s: string)
    ensures Unreplace(Escape(s), '1', '/') == Replace(s, '~', "~0")
  {
    EscapeSteps(s);
    if s != [] {
      UnescapeFirst(s[1..]);
      var e, tail := Escape(s), Escape(s[1..]);
      if s[0] == '~' {
        assert e[1..] == "0" + tail && e[1..][1..] == tail;
        assert Unreplace(e, '1', '/') == "~" + Unreplace("0" + tail, '1', '/');
        UnreplaceSkips('0', tail, '1', '/');
      } else if s[0] == '/' {
        assert e[2..] == tail;
      } else {
        assert e == [s[0]] + tail;
        UnreplaceSkips(s[0], tail, '1', '/');
      }
    }
  }

  lemma UnreplaceSkips(x: char, tail: string, d: char, c: char)
    requires x != '~'
    ensures Unreplace([x] + tail, d, c) == [x] + Unreplace(tail, d, c)
  {
    assert ([x] + tail)[1..] == tail;
    if |tail| == 0 { assert [x] + tail == [x]; }
  }

  lemma {:induction false} UnescapeSecond(s: string)
    ensures Unreplace(Replace(s, '~', "~0"), '0', '~') == s
  {
    if s != [] {
      UnescapeSecond(s[1..]);
      var tail := Replace(s[1..], '~', "~0");
      if s[0] == '~' {
        assert ("~0" + tail)[2..] == tail;
      } else {
        UnreplaceSkips(s[0], tail, '0', '~');
      }
    }
  }

  lemma EscapeRoundTrip(s: string)
    ensures Unescape(Escape(s)) == s
  {
    UnescapeFirst(s);
    UnescapeSecond(s);
  }

  lemma {:induction false} NextSlashAfter(head: string, rest: string)
    requires '/' !in head && (rest == "" || rest[0] == '/')
    ensures NextSlash(head + rest) == |head|
  {
    if head != [] {
      assert (head + rest)[1..] == head[1..] + rest;
      NextSlashAfter(head[1..], rest);
    } else {
      assert head + rest == rest;
    }
  }

  lemma TokensStep(head: string, rest: string)
    requires '/' !in head && (rest == "" || rest[0] == '/') && Tokens(rest).Some?
    ensures Tokens("/" + head + rest) == Some([Unescape(head)] + Tokens(rest).value)
  {
    hide Unescape;
    var p := "/" + head + rest;
    assert p[1..] == head + rest;
    NextSlashAfter(head, rest);
    assert p[1..1 + |head|] == head && p[1 + |head|..] == rest;
  }

  /** Printing a path and tokenizing it gives the path back, for any segments whatever. */
  lemma {:induction false} PointerRoundTrip(path: seq<string>)
    ensures Tokens(PointerOf(path)) == Some(path)
  {
    hide Escape, Unescape;
    if path != [] {
      PointerRoundTrip(path[1..]);
      EscapeHasNoSlash(path[0]);
      EscapeRoundTrip(path[0]);
      TokensStep(Escape(path[0]), PointerOf(path[1..]));
      assert path == [path[0]] + path[1..];
    }
  }

  /** So a printed path resolves to the value it leads to. */
  lemma PointerResolves(v: Json, path: seq<string>)
    ensures Resolve(v, PointerOf(path)) == Descend(v, path)
  {
    PointerRoundTrip(path);
  }

  // ---- What equality decides ----------------------------------------------------------------

  /** One text is the other with the legacy scheme in place of the current one. */
  ghost predicate Renamed(s: string, t: string) {
    exists tail: string :: s == "did:ad:" + tail && t == "atomic:" + tail
  }

  /** Two nodes agree, apart from their children: the same kind and children's names, the same number
      however it is written, the same text up to the legacy scheme. */
  ghost predicate SameNode(a: Json, b: Json) {
    match (a, b)
    case (Null, Null) => true
    case (Bool(x), Bool(y)) => x == y
    case (Num(x), Num(y)) => x.Value() == y.Value()
    case (Str(s), Str(t)) => s == t || Renamed(s, t) || Renamed(t, s)
    case (Arr(x), Arr(y)) => |x| == |y|
    case (Obj(x), Obj(y)) => x.Keys == y.Keys
    case _ => false
  }

  ghost predicate SameAt(a: Json, b: Json, path: seq<string>) {
    match (Descend(a, path), Descend(b, path))
    case (Some(u), Some(v)) => SameNode(u, v)
    case (None, None) => true
    case _ => false
  }

  lemma SameText(s: string, t: string)
    ensures CanonicalScheme(s) == CanonicalScheme(t) <==> s == t || Renamed(s, t) || Renamed(t, s)
  {
    var u, v := CanonicalScheme(s), CanonicalScheme(t);
    if u == v && DID_AD_PREFIX <= s && DID_AD_PREFIX <= t { LegacySame(s, t); }
    if u == v && s != t {
      if DID_AD_PREFIX <= s && !(DID_AD_PREFIX <= t) {
        assert s == "did:ad:" + s[|DID_AD_PREFIX|..] && t == "atomic:" + s[|DID_AD_PREFIX|..];
      } else if DID_AD_PREFIX <= t && !(DID_AD_PREFIX <= s) {
        assert t == "did:ad:" + t[|DID_AD_PREFIX|..] && s == "atomic:" + t[|DID_AD_PREFIX|..];
      }
    }
    if Renamed(s, t) { RenamedAgree(s, t); }
    if Renamed(t, s) { RenamedAgree(t, s); }
  }

  lemma LegacySame(s: string, t: string)
    requires DID_AD_PREFIX <= s && DID_AD_PREFIX <= t && CanonicalScheme(s) == CanonicalScheme(t)
    ensures s == t
  {
    assert CanonicalScheme(s)[|ATOMIC_PREFIX|..] == s[|DID_AD_PREFIX|..] && CanonicalScheme(t)[|ATOMIC_PREFIX|..] == t[|DID_AD_PREFIX|..];
    assert s == DID_AD_PREFIX + s[|DID_AD_PREFIX|..] && t == DID_AD_PREFIX + t[|DID_AD_PREFIX|..];
  }

  lemma RenamedAgree(s: string, t: string)
    requires Renamed(s, t)
    ensures CanonicalScheme(s) == CanonicalScheme(t)
  {
    var tail :| s == "did:ad:" + tail && t == "atomic:" + tail;
    CanonicalSchemeMeans(tail);
    assert t[0] == 'a';
  }

  lemma EqualNodes(a: Json, b: Json)
    requires JsonEq(a, b)
    ensures SameNode(a, b)
  {
    match (a, b)
    case (Str(s), Str(t)) => SameText(s, t);
    case (Obj(x), Obj(y)) => EqualObjectsSameKeys(x, y);
    case _ =>
  }

  lemma {:induction false} EqualAt(a: Json, b: Json, path: seq<string>)
    requires JsonEq(a, b)
    ensures SameAt(a, b, path)
    decreases |path|
  {
    hide SameNode;
    EqualNodes(a, b);
    if path != [] {
      EqualChildren(a, b, path[0]);
      if Child(a, path[0]).Some? { EqualAt(Child(a, path[0]).value, Child(b, path[0]).value, path[1..]); }
    }
  }

  lemma EqualChildren(a: Json, b: Json, token: string)
    requires JsonEq(a, b)
    ensures Child(a, token).Some? <==> Child(b, token).Some?
    ensures Child(a, token).Some? ==> JsonEq(Child(a, token).value, Child(b, token).value)
  {
    match (a, b)
    case (Obj(x), Obj(y)) => EqualObjectsSameKeys(x, y);
    case _ =>
  }

  lemma SameBelow(a: Json, b: Json, token: string)
    requires forall path :: SameAt(a, b, path)
    requires Child(a, token).Some? && Child(b, token).Some?
    ensures forall path :: SameAt(Child(a, token).value, Child(b, token).value, path)
  {
    hide SameNode, Child;
    forall path ensures SameAt(Child(a, token).value, Child(b, token).value, path) {
      assert SameAt(a, b, [token] + path);
      assert ([token] + path)[1..] == path;
    }
  }

  lemma {:induction false} EqualFromNodes(a: Json, b: Json)
    requires forall path :: SameAt(a, b, path)
    ensures JsonEq(a, b)
    decreases a
  {
    assert SameAt(a, b, []);
    match (a, b)
    case (Str(s), Str(t)) => SameText(s, t);
    case (Arr(x), Arr(y)) =>
      forall i | 0 <= i < |x| ensures JsonEq(x[i], y[i]) {
        IndexRoundTrip(i);
        SameBelow(a, b, NatToString(i));
        EqualFromNodes(x[i], y[i]);
      }
    case (Obj(x), Obj(y)) =>
      assert |x| == |x.Keys| && |y| == |y.Keys|;
      forall k | k in x ensures k in y && JsonEq(x[k], y[k]) {
        SameBelow(a, b, k);
        EqualFromNodes(x[k], y[k]);
      }
    case _ =>
  }

  /** What the comparison decides: two values are equal exactly when every path leads somewhere in both or in
      neither, and to nodes that agree. */
  lemma JsonEqIff(a: Json, b: Json)
    ensures JsonEq(a, b) <==> forall path :: SameAt(a, b, path)
  {
    if JsonEq(a, b) { forall path ensures SameAt(a, b, path) { EqualAt(a, b, path); } }
    if forall path :: SameAt(a, b, path) { EqualFromNodes(a, b); }
  }

  lemma {:induction false} DescendJoin(v: Json, front: seq<string>, back: seq<string>)
    requires Descend(v, front).Some?
    ensures Descend(v, front + back) == Descend(Descend(v, front).value, back)
  {
    if front == [] {
      assert front + back == back;
    } else {
      assert (front + back)[1..] == front[1..] + back;
      DescendJoin(Child(v, front[0]).value, front[1..], back);
    }
  }
}
