/** Printing and parsing of repeated items, given that they invert each other on
    single items. */
module ParseLaws {
  import opened Words
  import opened Wire

  lemma Assoc(a: seq<Byte>, b: seq<Byte>, c: seq<Byte>)
    ensures (a + b) + c == a + (b + c)
  {
  }

  lemma PlusNothing(a: seq<Byte>)
    ensures a + [] == a
  {
  }

  lemma HeadTail<T>(x: T, xs: seq<T>)
    ensures ([x] + xs)[0] == x && ([x] + xs)[1..] == xs && |[x] + xs| == |xs| + 1
  {
  }

  /** What was printed parses back, whatever follows. */
  ghost predicate Returns<T(!new)>(get: seq<Byte> -> Parse<T>, put: T -> seq<Byte>, ok: T -> bool) {
    forall x, rest {:trigger get(put(x) + rest)} :: ok(x) ==> get(put(x) + rest) == Ok(x, rest)
  }

  /** What parses is acceptable and prints as the bytes consumed. */
  ghost predicate Reprints<T(!new)>(get: seq<Byte> -> Parse<T>, put: T -> seq<Byte>, ok: T -> bool) {
    forall bs {:trigger get(bs)} :: get(bs).Ok? ==> ok(get(bs).value) && put(get(bs).value) + get(bs).rest == bs
  }

  ghost predicate All<T(!new)>(xs: seq<T>, ok: T -> bool) { forall i :: 0 <= i < |xs| ==> ok(xs[i]) }

  lemma AllCons<T(!new)>(x: T, xs: seq<T>, ok: T -> bool)
    ensures All([x] + xs, ok) <==> ok(x) && All(xs, ok)
  {
    var ys := [x] + xs;
    if All(ys, ok) {
      assert ok(ys[0]);
      forall i | 0 <= i < |xs| ensures ok(xs[i]) { assert xs[i] == ys[i + 1]; }
    }
    if ok(x) && All(xs, ok) {
      forall i | 0 <= i < |ys| ensures ok(ys[i]) { if i > 0 { assert ys[i] == xs[i - 1]; } }
    }
  }

  lemma {:induction false} ManyReturn<T(!new)>(get: seq<Byte> -> Parse<T>, put: T -> seq<Byte>, ok: T -> bool,
                                               xs: seq<T>, rest: seq<Byte>)
    requires Returns(get, put, ok) && All(xs, ok)
    ensures GetMany(get, PutMany(put, xs) + rest, |xs|) == Ok(xs, rest)
    decreases |xs|
  {
    if xs == [] {
      assert PutMany(put, xs) + rest == rest;
    } else {
      assert xs == [xs[0]] + xs[1..];
      AllCons(xs[0], xs[1..], ok);
      ManyReturn(get, put, ok, xs[1..], rest);
      Assoc(put(xs[0]), PutMany(put, xs[1..]), rest);
    }
  }

  lemma {:induction false} ManyReprint<T(!new)>(get: seq<Byte> -> Parse<T>, put: T -> seq<Byte>, ok: T -> bool,
                                                bs: seq<Byte>, n: nat)
    requires Reprints(get, put, ok) && GetMany(get, bs, n).Ok?
    ensures var p := GetMany(get, bs, n);
            |p.value| == n && All(p.value, ok) && PutMany(put, p.value) + p.rest == bs
    decreases n
  {
    if n > 0 {
      var p := get(bs);
      var q := GetMany(get, p.rest, n - 1);
      ManyReprint(get, put, ok, p.rest, n - 1);
      HeadTail(p.value, q.value);
      AllCons(p.value, q.value, ok);
      Assoc(put(p.value), PutMany(put, q.value), q.rest);
    }
  }

  lemma {:induction false} ManyLength<T(!new)>(put: T -> seq<Byte>, ok: T -> bool, least: nat, xs: seq<T>)
    requires All(xs, ok) && forall x {:trigger put(x)} :: ok(x) ==> |put(x)| >= least
    ensures |PutMany(put, xs)| >= least * |xs|
    decreases |xs|
  {
    if xs != [] {
      assert xs == [xs[0]] + xs[1..];
      AllCons(xs[0], xs[1..], ok);
      ManyLength(put, ok, least, xs[1..]);
      assert least * |xs| == least + least * (|xs| - 1);
    }
  }

  /** The guard on the count never rejects a genuine encoding. */
  lemma CountedReturn<T(!new)>(get: seq<Byte> -> Parse<T>, put: T -> seq<Byte>, ok: T -> bool, least: nat,
                               xs: seq<T>, rest: seq<Byte>)
    requires least > 0 && Returns(get, put, ok) && All(xs, ok) && |xs| <= MAX_ITEMS
    requires forall x {:trigger put(x)} :: ok(x) ==> |put(x)| >= least
    requires GetU32(LeBytes(|xs|, 4) + (PutMany(put, xs) + rest)) == Ok(|xs|, PutMany(put, xs) + rest)
    ensures GetCounted(get, least, PutCounted(put, xs) + rest) == Ok(xs, rest)
  {
    ManyReturn(get, put, ok, xs, rest);
    ManyLength(put, ok, least, xs);
    EnoughLeft(|xs|, |PutMany(put, xs) + rest|, least);
    CountedFrom(get, least, LeBytes(|xs|, 4) + (PutMany(put, xs) + rest), |xs|, PutMany(put, xs) + rest);
    Assoc(LeBytes(|xs|, 4), PutMany(put, xs), rest);
    SmallCount(|xs|);
  }

  lemma CountedFrom<T(!new)>(get: seq<Byte> -> Parse<T>, least: nat, bs: seq<Byte>, n: nat, tail: seq<Byte>)
    requires least > 0 && GetU32(bs) == Ok(n, tail) && n <= MAX_ITEMS && n <= |tail| / least
    ensures GetCounted(get, least, bs) == GetMany(get, tail, n)
  {
  }

  lemma SmallCount(n: nat)
    requires n <= MAX_ITEMS
    ensures n % TWO32 == n
  {
  }

  lemma EnoughLeft(n: nat, size: nat, least: nat)
    requires least > 0 && size >= least * n
    ensures n <= size / least
  {
    var x, r := size / least, size % least;
    assert size == x * least + r;
    assert (x + 1 - n) * least == x * least + least - least * n;
    PositiveFactor(x + 1 - n, least);
  }

  lemma CountedReprint<T(!new)>(get: seq<Byte> -> Parse<T>, put: T -> seq<Byte>, ok: T -> bool, least: nat,
                                bs: seq<Byte>)
    requires least > 0 && Reprints(get, put, ok) && GetCounted(get, least, bs).Ok?
    requires GetU32(bs).Ok? ==> LeBytes(GetU32(bs).value, 4) + GetU32(bs).rest == bs
    ensures var p := GetCounted(get, least, bs);
            |p.value| <= MAX_ITEMS && All(p.value, ok) && PutCounted(put, p.value) + p.rest == bs
  {
    var c := GetU32(bs);
    ManyReprint(get, put, ok, c.rest, c.value);
    var q := GetMany(get, c.rest, c.value);
    Assoc(LeBytes(c.value, 4), PutMany(put, q.value), q.rest);
  }

  // ------------------------------------------------------------------
  // Fields of different kinds.
  // ------------------------------------------------------------------

  lemma AllFieldsCons(k: Kind, ks: seq<Kind>, v: Value, vs: seq<Value>, ok: (Kind, Value) -> bool)
    requires |ks| == |vs|
    ensures AllFields([k] + ks, [v] + vs, ok) <==> ok(k, v) && AllFields(ks, vs, ok)
  {
    var ks1, vs1 := [k] + ks, [v] + vs;
    if AllFields(ks1, vs1, ok) {
      assert ok(ks1[0], vs1[0]);
      forall i | 0 <= i < |ks| ensures ok(ks[i], vs[i]) { assert ks[i] == ks1[i + 1] && vs[i] == vs1[i + 1]; }
    }
    if ok(k, v) && AllFields(ks, vs, ok) {
      forall i | 0 <= i < |ks1| ensures ok(ks1[i], vs1[i]) {
        if i > 0 { assert ks1[i] == ks[i - 1] && vs1[i] == vs[i - 1]; }
      }
    }
  }

  lemma {:induction false} FieldsReturn(get: (Kind, seq<Byte>) -> Parse<Value>, put: (Kind, Value) -> seq<Byte>,
                                        ok: (Kind, Value) -> bool, ks: seq<Kind>, vs: seq<Value>, rest: seq<Byte>)
    requires AllFields(ks, vs, ok)
    requires forall k, v, r {:trigger get(k, put(k, v) + r)} :: ok(k, v) ==> get(k, put(k, v) + r) == Ok(v, r)
    ensures GetFields(get, ks, PutFields(put, ks, vs) + rest) == Ok(vs, rest)
    decreases |ks|
  {
    if ks == [] {
      assert PutFields(put, ks, vs) + rest == rest;
    } else {
      assert ks == [ks[0]] + ks[1..] && vs == [vs[0]] + vs[1..];
      AllFieldsCons(ks[0], ks[1..], vs[0], vs[1..], ok);
      FieldsReturn(get, put, ok, ks[1..], vs[1..], rest);
      Assoc(put(ks[0], vs[0]), PutFields(put, ks[1..], vs[1..]), rest);
    }
  }

  lemma {:induction false} FieldsReprint(get: (Kind, seq<Byte>) -> Parse<Value>, put: (Kind, Value) -> seq<Byte>,
                                         ok: (Kind, Value) -> bool, ks: seq<Kind>, bs: seq<Byte>)
    requires GetFields(get, ks, bs).Ok?
    requires forall k, b {:trigger get(k, b)} :: get(k, b).Ok? ==>
      ok(k, get(k, b).value) && put(k, get(k, b).value) + get(k, b).rest == b
    ensures var p := GetFields(get, ks, bs);
            AllFields(ks, p.value, ok) && PutFields(put, ks, p.value) + p.rest == bs
    decreases |ks|
  {
    if ks != [] {
      var p := get(ks[0], bs);
      var q := GetFields(get, ks[1..], p.rest);
      FieldsReprint(get, put, ok, ks[1..], p.rest);
      HeadTail(p.value, q.value);
      assert ks == [ks[0]] + ks[1..];
      AllFieldsCons(ks[0], ks[1..], p.value, q.value, ok);
      Assoc(put(ks[0], p.value), PutFields(put, ks[1..], q.value), q.rest);
    }
  }

  // ------------------------------------------------------------------
  // Printing item by item.
  // ------------------------------------------------------------------

  lemma ManySplit<T>(put: T -> seq<Byte>, xs: seq<T>, i: nat, done: seq<Byte>)
    requires i < |xs|
    ensures done + PutMany(put, xs[i..]) == (done + put(xs[i])) + PutMany(put, xs[i + 1..])
  {
    assert xs[i..][0] == xs[i] && xs[i..][1..] == xs[i + 1..];
    Assoc(done, put(xs[i]), PutMany(put, xs[i + 1..]));
  }

  lemma ManyAll<T>(put: T -> seq<Byte>, xs: seq<T>, done: seq<Byte>)
    ensures PutMany(put, xs[0..]) == PutMany(put, xs) && done + PutMany(put, xs[|xs|..]) == done
  {
    assert xs[0..] == xs && xs[|xs|..] == [];
    PlusNothing(done);
  }

  lemma FieldsSplit(put: (Kind, Value) -> seq<Byte>, ks: seq<Kind>, vs: seq<Value>, i: nat, done: seq<Byte>)
    requires |ks| == |vs| && i < |ks|
    ensures done + PutFields(put, ks[i..], vs[i..])
      == (done + put(ks[i], vs[i])) + PutFields(put, ks[i + 1..], vs[i + 1..])
  {
    assert ks[i..][1..] == ks[i + 1..] && vs[i..][1..] == vs[i + 1..];
    Assoc(done, put(ks[i], vs[i]), PutFields(put, ks[i + 1..], vs[i + 1..]));
  }

  lemma FieldsAll(put: (Kind, Value) -> seq<Byte>, ks: seq<Kind>, vs: seq<Value>, done: seq<Byte>)
    requires |ks| == |vs|
    ensures PutFields(put, ks[0..], vs[0..]) == PutFields(put, ks, vs)
    ensures done + PutFields(put, ks[|ks|..], vs[|ks|..]) == done
  {
    assert ks[0..] == ks && vs[0..] == vs && ks[|ks|..] == [];
    PlusNothing(done);
  }

  // ------------------------------------------------------------------
  // Parsing item by item.
  // ------------------------------------------------------------------

  /** Parsing all `n` items comes to those read so far and a parse of the others. */
  ghost predicate ManySoFar<T>(get: seq<Byte> -> Parse<T>, start: seq<Byte>, n: nat, xs: seq<T>, rest: seq<Byte>)
    requires |xs| <= n
  {
    match GetMany(get, rest, n - |xs|)
    case Fail(e) => GetMany(get, start, n) == Fail(e)
    case Ok(ys, after) => GetMany(get, start, n) == Ok(xs + ys, after)
  }

  lemma ManyStart<T>(get: seq<Byte> -> Parse<T>, start: seq<Byte>, n: nat)
    ensures ManySoFar(get, start, n, [], start)
  {
    var p := GetMany(get, start, n);
    if p.Ok? { assert [] + p.value == p.value; }
  }

  lemma ManyStep<T>(get: seq<Byte> -> Parse<T>, start: seq<Byte>, n: nat, xs: seq<T>, rest: seq<Byte>)
    requires |xs| < n && ManySoFar(get, start, n, xs, rest)
    ensures get(rest).Fail? ==> GetMany(get, start, n) == Fail(get(rest).error)
    ensures get(rest).Ok? ==> ManySoFar(get, start, n, xs + [get(rest).value], get(rest).rest)
  {
    var p := get(rest);
    if p.Ok? {
      var q := GetMany(get, p.rest, n - |xs| - 1);
      assert |xs + [p.value]| == |xs| + 1;
      if q.Ok? { assert xs + ([p.value] + q.value) == (xs + [p.value]) + q.value; }
    }
  }

  lemma ManyDone<T>(get: seq<Byte> -> Parse<T>, start: seq<Byte>, n: nat, xs: seq<T>, rest: seq<Byte>)
    requires |xs| == n && ManySoFar(get, start, n, xs, rest)
    ensures GetMany(get, start, n) == Ok(xs, rest)
  {
    assert xs + [] == xs;
  }

  ghost predicate FieldsSoFar(get: (Kind, seq<Byte>) -> Parse<Value>, start: seq<Byte>, ks: seq<Kind>,
                              vs: seq<Value>, rest: seq<Byte>)
    requires |vs| <= |ks|
  {
    match GetFields(get, ks[|vs|..], rest)
    case Fail(e) => GetFields(get, ks, start) == Fail(e)
    case Ok(ws, after) => GetFields(get, ks, start) == Ok(vs + ws, after)
  }

  lemma FieldsStart(get: (Kind, seq<Byte>) -> Parse<Value>, start: seq<Byte>, ks: seq<Kind>)
    ensures FieldsSoFar(get, start, ks, [], start)
  {
    assert ks[0..] == ks;
    var p := GetFields(get, ks, start);
    if p.Ok? { assert [] + p.value == p.value; }
  }

  lemma FieldsStep(get: (Kind, seq<Byte>) -> Parse<Value>, start: seq<Byte>, ks: seq<Kind>, vs: seq<Value>,
                   rest: seq<Byte>)
    requires |vs| < |ks| && FieldsSoFar(get, start, ks, vs, rest)
    ensures get(ks[|vs|], rest).Fail? ==> GetFields(get, ks, start) == Fail(get(ks[|vs|], rest).error)
    ensures get(ks[|vs|], rest).Ok? ==>
      FieldsSoFar(get, start, ks, vs + [get(ks[|vs|], rest).value], get(ks[|vs|], rest).rest)
  {
    var i := |vs|;
    var p := get(ks[i], rest);
    assert ks[i..][0] == ks[i] && ks[i..][1..] == ks[i + 1..];
    if p.Ok? {
      var q := GetFields(get, ks[i + 1..], p.rest);
      assert |vs + [p.value]| == i + 1;
      if q.Ok? { assert vs + ([p.value] + q.value) == (vs + [p.value]) + q.value; }
    }
  }

  lemma FieldsDone(get: (Kind, seq<Byte>) -> Parse<Value>, start: seq<Byte>, ks: seq<Kind>, vs: seq<Value>,
                   rest: seq<Byte>)
    requires |vs| == |ks| && FieldsSoFar(get, start, ks, vs, rest)
    ensures GetFields(get, ks, start) == Ok(vs, rest)
  {
    assert ks[|vs|..] == [] && vs + [] == vs;
  }
}
