/** Which bytes a store touches. */
module ByteMemory {
  import opened Words
  import opened Arith
  import opened Identities
  import opened Scalar

  /** `x` is one of the `n` bytes from `a` on, addresses wrapping. */
  predicate Covers(a: U64, n: nat, x: U64) { Wrap(x - a) < n }

  /** The two memories hold the same at `x`. */
  predicate AgreeAt(m: Mem, m': Mem, x: U64) {
    (x in m <==> x in m') && (x in m ==> m[x] == m'[x])
  }

  lemma NextOffset(a: U64, x: U64)
    requires x != a
    ensures Wrap(x - Wrap(a + 1)) == Wrap(x - a) - 1
  {
    if a + 1 == TWO64 {
      assert Wrap(a + 1) == 0;
      WrapSmall(x);
      WrapNegative(x - a);
    } else {
      WrapSmall(a + 1);
      if x > a { WrapSmall(x - a); WrapSmall(x - a - 1); } else { WrapNegative(x - a); WrapNegative(x - a - 1); }
    }
  }

  lemma {:induction false} StoreOutside(m: Mem, a: U64, v: nat, n: nat, x: U64)
    requires !Covers(a, n, x) && n < TWO64
    ensures AgreeAt(StoreBytes(m, a, v, n), m, x)
    decreases n
  {
    if n > 0 {
      if x == a { WrapSmall(0); assert false; }
      NextOffset(a, x);
      StoreOutside(m[a := v % 256], Wrap(a + 1), v / 256, n - 1, x);
    }
  }

  /** The same store into two memories makes them agree where it writes and
      keeps them agreeing elsewhere. */
  lemma {:induction false} StoreSame(m: Mem, m': Mem, a: U64, v: nat, n: nat, x: U64)
    requires Covers(a, n, x) || AgreeAt(m, m', x)
    ensures AgreeAt(StoreBytes(m, a, v, n), StoreBytes(m', a, v, n), x)
    decreases n
  {
    if n > 0 {
      if x != a { NextOffset(a, x); }
      StoreSame(m[a := v % 256], m'[a := v % 256], Wrap(a + 1), v / 256, n - 1, x);
    }
  }

  lemma SameMemory(m: Mem, m': Mem)
    requires forall x: U64 :: AgreeAt(m, m', x)
    ensures m == m'
  {
    forall x: U64 ensures x in m <==> x in m' { assert AgreeAt(m, m', x); }
    assert m.Keys == m'.Keys;
    forall x | x in m ensures m[x] == m'[x] { assert AgreeAt(m, m', x); }
  }
}
