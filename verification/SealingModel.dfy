/** The assumptions on the primitives can be met together: a symbolic model of them. */
module SealingModel {
  import opened Basics
  import opened Sealing

  /** A byte string with an end mark, so that what follows it can be told apart. */
  function Marked(b: Bytes): (r: Bytes) {
    if b == [] then [1] else [0, b[0]] + Marked(b[1..])
  }

  lemma {:induction false} MarkedApart(a: Bytes, x: Bytes, b: Bytes, y: Bytes)
    requires Marked(a) + x == Marked(b) + y
    ensures a == b && x == y
    decreases |a|
  {
    var l, r := Marked(a) + x, Marked(b) + y;
    if a == [] || b == [] {
      assert l[0] == Marked(a)[0] && r[0] == Marked(b)[0];
      assert l[1..] == x && r[1..] == y;
    } else {
      assert l[0..2] == [0, a[0]] && r[0..2] == [0, b[0]];
      assert l[1] == a[0] && r[1] == b[0];
      assert l[2..] == Marked(a[1..]) + x && r[2..] == Marked(b[1..]) + y;
      MarkedApart(a[1..], x, b[1..], y);
      assert a == [a[0]] + a[1..] && b == [b[0]] + b[1..];
    }
  }

  function Pair(a: Bytes, b: Bytes): Bytes { Marked(a) + Marked(b) }

  lemma PairInjective(a: Bytes, b: Bytes, a': Bytes, b': Bytes)
    ensures Pair(a, b) == Pair(a', b') ==> a == a' && b == b'
  {
    if Pair(a, b) == Pair(a', b') {
      MarkedApart(a, Marked(b), a', Marked(b'));
      assert Marked(b) + [] == Marked(b) && Marked(b') + [] == Marked(b');
      MarkedApart(b, [], b', []);
    }
  }

  function Quad(a: Bytes, b: Bytes, c: Bytes, d: Bytes): Bytes { Pair(Pair(a, b), Pair(c, d)) }

  lemma QuadInjective(a: Bytes, b: Bytes, c: Bytes, d: Bytes, a': Bytes, b': Bytes, c': Bytes, d': Bytes)
    ensures Quad(a, b, c, d) == Quad(a', b', c', d') ==> a == a' && b == b' && c == c' && d == d'
  {
    PairInjective(Pair(a, b), Pair(c, d), Pair(a', b'), Pair(c', d'));
    PairInjective(a, b, a', b');
    PairInjective(c, d, c', d');
  }

  function Tag(): (r: Bytes)
    ensures |r| == FILE_TAG_LEN
  {
    seq(FILE_TAG_LEN, i => 0)
  }

  function SymbolicSeal(k: Bytes, n: Bytes, m: Bytes, a: Bytes): (r: Bytes)
    ensures |r| >= FILE_TAG_LEN
  {
    Tag() + Quad(k, n, m, a)
  }

  lemma SealInjective(k: Bytes, n: Bytes, m: Bytes, a: Bytes, k': Bytes, n': Bytes, m': Bytes, a': Bytes)
    ensures SymbolicSeal(k, n, m, a) == SymbolicSeal(k', n', m', a') ==> k == k' && n == n' && m == m' && a == a'
  {
    hide Quad;
    assert SymbolicSeal(k, n, m, a)[FILE_TAG_LEN..] == Quad(k, n, m, a);
    assert SymbolicSeal(k', n', m', a')[FILE_TAG_LEN..] == Quad(k', n', m', a');
    QuadInjective(k, n, m, a, k', n', m', a');
  }

  ghost function SymbolicOpen(k: Bytes, n: Bytes, x: Bytes, a: Bytes): Option<Bytes> {
    if exists m :: x == SymbolicSeal(k, n, m, a) then
      var m :| x == SymbolicSeal(k, n, m, a); Some(m)
    else None
  }

  lemma OpenInverts(k: Bytes, n: Bytes, m: Bytes, a: Bytes)
    ensures SymbolicOpen(k, n, SymbolicSeal(k, n, m, a), a) == Some(m)
  {
    var got := SymbolicOpen(k, n, SymbolicSeal(k, n, m, a), a).value;
    SealInjective(k, n, m, a, k, n, got, a);
  }

  function Letters(b: Bytes): string { seq(|b|, i requires 0 <= i < |b| => b[i] as char) }

  function BytesOf(s: string): Option<Bytes> {
    if forall i | 0 <= i < |s| :: s[i] as int < 256 then Some(seq(|s|, i requires 0 <= i < |s| => s[i] as Byte)) else None
  }

  lemma LettersRoundTrip(b: Bytes)
    ensures BytesOf(Letters(b)) == Some(b)
  {
    var s := Letters(b);
    assert forall i | 0 <= i < |s| :: s[i] as int == b[i] as int;
    assert BytesOf(s).value == b;
  }

  ghost function Symbolic(): Crypto {
    Crypto(b => true, b => b, b => b, (s: Bytes, t: Bytes) => Some([]),
           (s: Bytes, e: Bytes, r: Bytes, b: Bytes) => Quad(s, e, r, b), (k: Bytes, i: Bytes) => Pair(k, i),
           (k: Bytes, n: Bytes, m: Bytes, a: Bytes) => SymbolicSeal(k, n, m, a),
           (k: Bytes, n: Bytes, x: Bytes, a: Bytes) => SymbolicOpen(k, n, x, a),
           (b: Bytes) => Letters(b), (s: string) => BytesOf(s))
  }

  /** Ideal primitives exist: no theorem about them is empty. Every byte string passes for a key and all
      exchanges share one secret; only what `Ideal` asks is modelled, not secrecy. */
  lemma SymbolicIsIdeal()
    ensures Ideal(Symbolic())
  {
    hide SymbolicSeal, SymbolicOpen, Quad, Pair, Letters, BytesOf;
    var c := Symbolic();
    forall k, n, m, a ensures c.open(k, n, c.seal(k, n, m, a), a) == Some(m) { OpenInverts(k, n, m, a); }
    forall k, n, x, a ensures c.open(k, n, x, a).Some? ==> x == c.seal(k, n, c.open(k, n, x, a).value, a) { OpenedWasSealed(k, n, x, a); }
    forall k, n, m, a, k', n', m', a' ensures c.seal(k, n, m, a) == c.seal(k', n', m', a') ==> k == k' && n == n' && m == m' && a == a' {
      SealInjective(k, n, m, a, k', n', m', a');
    }
    forall s, e, r, b, s', e', r', b' ensures c.wrapKey(s, e, r, b) == c.wrapKey(s', e', r', b') ==> s == s' && e == e' && r == r' && b == b' {
      QuadInjective(s, e, r, b, s', e', r', b');
    }
    forall k, i, k', i' ensures c.messageKey(k, i) == c.messageKey(k', i') ==> k == k' && i == i' { PairInjective(k, i, k', i'); }
    forall x ensures c.decode(c.encode(x)) == Some(x) { LettersRoundTrip(x); }
  }

  lemma OpenedWasSealed(k: Bytes, n: Bytes, x: Bytes, a: Bytes)
    ensures SymbolicOpen(k, n, x, a).Some? ==> x == SymbolicSeal(k, n, SymbolicOpen(k, n, x, a).value, a)
  {
    hide SymbolicSeal;
  }
}
