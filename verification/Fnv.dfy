/** FNV-1a, the content hash under which translations are kept. */
module Fnv {
  import opened Words
  import opened Arith

  const FNV_OFFSET: U64 := 0xcbf29ce484222325
  const FNV_PRIME: U64 := 0x100000001b3

  /** The prime's inverse modulo 2^64, and the quotient that says so. */
  const FNV_INVERSE: U64 := 0xce965057aff6957b
  const FNV_QUOTIENT: nat := 887285111055

  function Mix(h: U64, b: Byte): U64 { Wrap(Xor64(h, b) * FNV_PRIME) }

  function Fnv1a(bytes: seq<Byte>): U64 {
    if bytes == [] then FNV_OFFSET else Mix(Fnv1a(bytes[..|bytes| - 1]), bytes[|bytes| - 1])
  }

  /** `fnv1a_64`. */
  method Hash(bytes: seq<Byte>) returns (h: U64)
    ensures h == Fnv1a(bytes)
  {
    h := FNV_OFFSET;
    for i := 0 to |bytes|
      invariant h == Fnv1a(bytes[..i])
    {
      assert bytes[..i + 1][..i] == bytes[..i];
      h := Xor64(h, bytes[i]);
      h := Wrap(h * FNV_PRIME);
    }
    TakeAll(bytes);
  }

  // ------------------------------------------------------------------
  // Mixing loses nothing.
  // ------------------------------------------------------------------

  lemma XorParts(a: nat, b: nat)
    ensures Xor(a, b) / 2 == Xor(a / 2, b / 2)
    ensures Xor(a, b) % 2 == if a % 2 != b % 2 then 1 else 0
  {
  }

  lemma {:induction false} XorCancels(a: nat, b: nat, c: nat, d: nat)
    requires Xor(a, b) == Xor(c, d) && (a == c || b == d)
    ensures a == c && b == d
    decreases a + b + c + d
  {
    XorParts(a, b);
    XorParts(c, d);
    if a + b + c + d > 0 { XorCancels(a / 2, b / 2, c / 2, d / 2); }
  }

  /** The prime is odd, so multiplying by it can be undone. */
  lemma PrimeCancels(x: U64, y: U64)
    requires Wrap(x * FNV_PRIME) == Wrap(y * FNV_PRIME)
    ensures x == y
  {
    var q := x * FNV_PRIME / TWO64 - y * FNV_PRIME / TWO64;
    assert (x - y) * FNV_PRIME == TWO64 * q;
    var k := q * FNV_INVERSE - (x - y) * FNV_QUOTIENT;
    assert FNV_PRIME * FNV_INVERSE == TWO64 * FNV_QUOTIENT + 1;
    assert x - y == TWO64 * k;
  }

  lemma MixExact(h: U64, b: Byte, h': U64, b': Byte)
    requires h == h' || b == b'
    ensures Mix(h, b) == Mix(h', b') <==> h == h' && b == b'
  {
    if Mix(h, b) == Mix(h', b') {
      PrimeCancels(Xor64(h, b), Xor64(h', b'));
      XorCancels(h, b, h', b');
    }
  }

  // ------------------------------------------------------------------
  // What the hash tells apart.
  // ------------------------------------------------------------------

  lemma Fnv1aSnoc(p: seq<Byte>, b: Byte)
    ensures Fnv1a(p + [b]) == Mix(Fnv1a(p), b)
  {
    assert (p + [b])[..|p|] == p;
  }

  /** A common ending neither makes nor hides a difference. */
  lemma {:induction false} SuffixExact(p: seq<Byte>, q: seq<Byte>, tail: seq<Byte>)
    ensures Fnv1a(p + tail) == Fnv1a(q + tail) <==> Fnv1a(p) == Fnv1a(q)
    decreases |tail|
  {
    if tail == [] {
      assert p + tail == p && q + tail == q;
    } else {
      var n := |tail| - 1;
      assert p + tail == (p + tail[..n]) + [tail[n]] && q + tail == (q + tail[..n]) + [tail[n]];
      Fnv1aSnoc(p + tail[..n], tail[n]);
      Fnv1aSnoc(q + tail[..n], tail[n]);
      MixExact(Fnv1a(p + tail[..n]), tail[n], Fnv1a(q + tail[..n]), tail[n]);
      SuffixExact(p, q, tail[..n]);
    }
  }

  /** The strings differ at `i` and nowhere else. */
  ghost predicate DifferAt(xs: seq<Byte>, ys: seq<Byte>, i: nat) {
    i < |xs| == |ys| && xs[i] != ys[i] && forall j :: 0 <= j < |xs| && j != i ==> xs[j] == ys[j]
  }

  /** A change of one byte always changes the hash. */
  lemma OneByteShows(xs: seq<Byte>, ys: seq<Byte>, i: nat)
    requires DifferAt(xs, ys, i)
    ensures Fnv1a(xs) != Fnv1a(ys)
  {
    var p, tail := xs[..i], xs[i + 1..];
    assert xs == p + [xs[i]] + tail && ys == p + [ys[i]] + tail;
    Fnv1aSnoc(p, xs[i]);
    Fnv1aSnoc(p, ys[i]);
    MixExact(Fnv1a(p), xs[i], Fnv1a(p), ys[i]);
    SuffixExact(p + [xs[i]], p + [ys[i]], tail);
  }
}
