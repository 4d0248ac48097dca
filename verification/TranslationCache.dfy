/** The translation cache as it is kept: four maps and a tick counter, proved to
    follow the recency list of `CacheModel` operation by operation. */
module TranslationCache {
  import opened Words
  import opened CacheModel
  import opened Fnv

  predicate Before(s: seq<Key>, i: int, j: int) { 0 <= i < j < |s| }

  /** Ticks rise along the list. */
  ghost predicate Rising(times: map<Key, U64>, s: seq<Key>) {
    && (forall x :: x in s ==> x in times)
    && (forall i, j {:trigger Before(s, i, j)} :: Before(s, i, j) ==> times[s[i]] < times[s[j]])
  }

  lemma RisingFirst(times: map<Key, U64>, s: seq<Key>, x: Key)
    requires Rising(times, s) && x in s
    ensures x in times && s[0] in times && (x == s[0] || times[s[0]] < times[x])
  {
    var i :| 0 <= i < |s| && s[i] == x;
    assert s[0] in s;
    if i > 0 { assert Before(s, 0, i); }
  }

  lemma RisingSnoc(times: map<Key, U64>, s: seq<Key>, k: Key)
    requires Rising(times, s) && k in times && forall x :: x in s ==> times[x] < times[k]
    ensures Rising(times, s + [k])
  {
    forall i, j | Before(s + [k], i, j) ensures times[(s + [k])[i]] < times[(s + [k])[j]] {
      if j < |s| { assert Before(s, i, j); } else { assert s[i] in s; }
    }
  }

  lemma RisingInit(times: map<Key, U64>, s: seq<Key>)
    requires Rising(times, s) && s != []
    ensures Rising(times, s[..|s| - 1]) && s[|s| - 1] in times
    ensures forall x :: x in s[..|s| - 1] ==> times[x] < times[s[|s| - 1]]
  {
    var n := |s| - 1;
    assert s[n] in s;
    forall i, j | Before(s[..n], i, j) ensures times[s[..n][i]] < times[s[..n][j]] { assert Before(s, i, j); }
    forall x | x in s[..n] ensures times[x] < times[s[n]] {
      var i :| 0 <= i < n && s[i] == x;
      assert Before(s, i, n);
    }
  }

  lemma {:induction false} RisingWithout(times: map<Key, U64>, s: seq<Key>, dead: set<Key>)
    requires Rising(times, s)
    ensures Rising(times - dead, Without(s, dead))
  {
    if s != [] {
      var n := |s| - 1;
      RisingInit(times, s);
      RisingWithout(times, s[..n], dead);
      if s[n] !in dead {
        forall x | x in Without(s[..n], dead) ensures x in times - dead && (times - dead)[x] < (times - dead)[s[n]] {
          WithoutHas(s[..n], dead, x);
        }
        RisingSnoc(times - dead, Without(s[..n], dead), s[n]);
      }
    }
  }

  lemma RisingAgree(t1: map<Key, U64>, t2: map<Key, U64>, s: seq<Key>)
    requires Rising(t1, s) && forall x :: x in s ==> x in t2 && x in t1 && t2[x] == t1[x]
    ensures Rising(t2, s)
  {
    forall i, j | Before(s, i, j) ensures t2[s[i]] < t2[s[j]] { assert s[i] in s && s[j] in s; }
  }

  lemma RisingTouched(times: map<Key, U64>, s: seq<Key>, k: Key, tick: U64)
    requires Rising(times, s) && forall x :: x in s ==> x in times && times[x] < tick
    ensures Rising(times[k := tick], Touched(s, k))
  {
    var w := Without(s, {k});
    RisingWithout(times, s, {k});
    forall x ensures x in w <==> x in s && x != k { WithoutHas(s, {k}, x); }
    RisingAgree(times - {k}, times[k := tick], w);
    RisingSnoc(times[k := tick], w, k);
  }

  // ------------------------------------------------------------------
  // The maps agree with the recency list.
  // ------------------------------------------------------------------

  /** Every entry has a tick below the next one, ticks rise along the list, and
      every entry has a hit count. */
  ghost predicate Sound(m: Model, times: map<Key, U64>, hits: map<Key, nat>, tick: U64) {
    && ValidModel(m) && times.Keys == m.entries.Keys
    && (forall k :: k in times ==> times[k] < tick)
    && Rising(times, m.order)
    && m.entries.Keys <= hits.Keys
  }

  lemma SoundDropped(m: Model, times: map<Key, U64>, hits: map<Key, nat>, tick: U64, dead: set<Key>,
                     hits1: map<Key, nat>)
    requires Sound(m, times, hits, tick) && hits.Keys - dead <= hits1.Keys
    ensures Sound(Dropped(m, dead), times - dead, hits1, tick)
  {
    DropKeeps(m, dead);
    RisingWithout(times, m.order, dead);
  }

  lemma SoundTouched(m: Model, times: map<Key, U64>, hits: map<Key, nat>, tick: U64, k: Key, n: nat)
    requires Sound(m, times, hits, tick) && k in m.entries && tick < TWO64 - 1
    ensures Sound(m.(order := Touched(m.order, k)), times[k := tick], hits[k := n], tick + 1)
  {
    TouchedKeeps(m.order, k);
    RisingTouched(times, m.order, k, tick);
    var m1 := m.(order := Touched(m.order, k));
    forall a | a in m1.index ensures Indexed(m1, a) { assert Indexed(m, a); }
    assert times[k := tick].Keys == m1.entries.Keys;
  }

  lemma SoundInstalled(m: Model, times: map<Key, U64>, hits: map<Key, nat>, tick: U64, k: Key, e: Entry)
    requires Sound(m, times, hits, tick) && tick < TWO64 - 1
    ensures Sound(Installed(m, k, e), times[k := tick], hits[k := 0], tick + 1)
  {
    InstallKeeps(m, k, e);
    RisingTouched(times, m.order, k, tick);
    assert times[k := tick].Keys == Installed(m, k, e).entries.Keys;
  }

  /** Dropping one live key, field by field. */
  lemma DropOne(m: Model, k: Key)
    requires ValidModel(m)
    ensures Dropped(m, {k}) == Model(Without(m.order, {k}), m.entries - {k},
      if k.addr in m.index && m.index[k.addr] == k.hash then m.index - {k.addr} else m.index, m.maxEntries, m.maxBytes)
  {
    var i1 := if k.addr in m.index && m.index[k.addr] == k.hash then m.index - {k.addr} else m.index;
    assert Dropped(m, {k}).index == i1;
  }

  /** A recency list together with maps that agree with it. */
  datatype Snap = Snap(m: Model, times: map<Key, U64>, hits: map<Key, nat>, tick: U64)

  type Snapshot = s: Snap | Sound(s.m, s.times, s.hits, s.tick)
    ghost witness Snap(Model([], map[], map[], 0, 0), map[], map[], 1)

  ghost function Drop(s: Snapshot, dead: set<Key>, hits: map<Key, nat>): Snapshot
    requires s.hits.Keys - dead <= hits.Keys
  {
    SoundDropped(s.m, s.times, s.hits, s.tick, dead, hits);
    Snap(Dropped(s.m, dead), s.times - dead, hits, s.tick)
  }

  ghost function Touch(s: Snapshot, k: Key, n: nat): Snapshot
    requires k in s.m.entries && s.tick < TWO64 - 1
  {
    SoundTouched(s.m, s.times, s.hits, s.tick, k, n);
    Snap(s.m.(order := Touched(s.m.order, k)), s.times[k := s.tick], s.hits[k := n], s.tick + 1)
  }

  ghost function Put(s: Snapshot, k: Key, e: Entry): Snapshot
    requires s.tick < TWO64 - 1
  {
    SoundInstalled(s.m, s.times, s.hits, s.tick, k, e);
    Snap(Installed(s.m, k, e), s.times[k := s.tick], s.hits[k := 0], s.tick + 1)
  }

  ghost function Recap(s: Snapshot, n: nat, b: nat): Snapshot {
    CapsFree(s.m, n, b);
    s.(m := s.m.(maxEntries := n, maxBytes := b))
  }

  /** Guest code that changed in one byte since its translation went in is stale. */
  lemma ChangeIsStale(m: Model, a: U64, was: seq<Byte>, now: seq<Byte>, i: nat, e: Entry)
    requires ValidModel(m) && DifferAt(was, now, i)
    ensures var k := Key(a, Fnv1a(was));
            var r := if m.maxBytes != 0 && |e.code| > m.maxBytes then UnknownAddress else StaleContent;
            && LookedUp(Upserted(m, k, e), a, Fnv1a(now)) == r
            && (k !in m.entries ==> LookedUp(Inserted(m, k, e), a, Fnv1a(now)) == r)
  {
    var k := Key(a, Fnv1a(was));
    OneByteShows(was, now, i);
    UpsertThenLookup(m, k, e);
    if k !in m.entries { InsertThenLookup(m, k, e); }
  }

  class Cache {
    var entries: map<Key, Entry>
    var addrToHash: map<U64, U64>
    var accessTimes: map<Key, U64>
    var hitCounts: map<Key, nat>
    var nextTick: U64
    var maxEntries: nat
    var maxBytes: nat
    /** The recency list, and maps that agree with it. */
    ghost var snap: Snapshot

    /** The fields are those maps. */
    ghost predicate Valid()
      reads this
    {
      && snap.m.entries == entries && snap.m.index == addrToHash
      && snap.m.maxEntries == maxEntries && snap.m.maxBytes == maxBytes
      && snap.times == accessTimes && snap.hits == hitCounts && snap.tick == nextTick
    }

    ghost function Abs(): Model
      reads this
    {
      snap.m
    }

    constructor ()
      ensures Valid() && Abs() == Model([], map[], map[], 0, 0)
    {
      entries, addrToHash, accessTimes, hitCounts := map[], map[], map[], map[];
      nextTick, maxEntries, maxBytes := 1, 0, 0;
      snap := Snap(Model([], map[], map[], 0, 0), map[], map[], 1);
    }

    /** The key with the smallest tick: the head of the recency list. */
    method PickLruKey() returns (best: Key)
      requires Valid() && entries != map[]
      ensures Abs().order != [] && best == Abs().order[0]
    {
      OrderEmpty(Abs());
      best := Key(0, 0);
      var bestTick: U64 := TWO64 - 1;
      var rest := accessTimes.Keys;
      ghost var first := Abs().order[0];
      assert first in Abs().order;
      RisingFirst(accessTimes, Abs().order, first);
      while rest != {}
        invariant rest <= accessTimes.Keys
        invariant first in rest ==> bestTick > accessTimes[first]
        invariant first !in rest ==> best == first && bestTick == accessTimes[first]
        decreases rest
      {
        var k :| k in rest;
        RisingFirst(accessTimes, Abs().order, k);
        rest := rest - {k};
        if accessTimes[k] < bestTick { bestTick, best := accessTimes[k], k; }
      }
    }

    /** The four maps without `k`; a key that is not there changes nothing. */
    method EraseKey(k: Key)
      requires Valid()
      modifies this
      ensures Valid() && Abs() == Dropped(old(Abs()), {k}) && nextTick == old(nextTick)
      ensures k in old(entries) ==> hitCounts == old(hitCounts) - {k}
    {
      if k !in entries {
        DropAbsent(Abs(), k);
        return;
      }
      DropOne(Abs(), k);
      entries := entries - {k};
      if k.addr in addrToHash && addrToHash[k.addr] == k.hash { addrToHash := addrToHash - {k.addr}; }
      accessTimes := accessTimes - {k};
      hitCounts := hitCounts - {k};
      snap := Drop(snap, {k}, snap.hits - {k});
    }

    method TotalCodeBytes() returns (total: nat)
      requires Valid()
      ensures total == Total(Abs().order, Abs().entries)
    {
      total := 0;
      var rest := entries.Keys;
      ghost var left := Abs().order;
      while rest != {}
        invariant NoDup(left) && forall k :: k in left <==> k in rest
        invariant rest <= entries.Keys && total + Total(left, entries) == Total(Abs().order, entries)
        decreases rest
      {
        var k :| k in rest;
        WithoutOne(left, k, entries);
        WithoutNoDup(left, {k});
        forall x ensures x in Without(left, {k}) <==> x in left && x != k { WithoutHas(left, {k}, x); }
        total := total + |entries[k].code|;
        rest := rest - {k};
        left := Without(left, {k});
      }
      SomeElement(left);
    }

    method IsOverCap() returns (over: bool)
      requires Valid()
      ensures over == OverCap(Abs())
    {
      OrderSize(Abs().order, entries.Keys);
      if maxEntries != 0 && |entries| > maxEntries { return true; }
      if maxBytes != 0 {
        var total := TotalCodeBytes();
        if total > maxBytes { return true; }
      }
      return false;
    }

    method MaybeEvict()
      requires Valid()
      modifies this
      ensures Valid() && Abs() == Evicted(old(Abs())) && nextTick == old(nextTick)
    {
      var over := IsOverCap();
      while entries != map[] && over
        invariant Valid() && over == OverCap(Abs()) && nextTick == old(nextTick)
        invariant Evicted(Abs()) == Evicted(old(Abs()))
        decreases |Abs().order|
      {
        var k := PickLruKey();
        WithoutFirst(Abs().order);
        EraseKey(k);
        over := IsOverCap();
      }
      OrderEmpty(Abs());
    }

    /** A hit: the key becomes the most recent one and is counted. */
    method TouchKey(k: Key)
      requires Valid() && k in entries && nextTick < TWO64 - 1
      modifies this
      ensures Valid() && Abs() == old(Abs()).(order := Touched(old(Abs()).order, k))
      ensures k in old(hitCounts) && hitCounts == old(hitCounts)[k := old(hitCounts)[k] + 1]
      ensures nextTick == old(nextTick) + 1 && entries == old(entries)
    {
      var n := hitCounts[k] + 1;
      accessTimes := accessTimes[k := nextTick];
      nextTick := nextTick + 1;
      hitCounts := hitCounts[k := n];
      snap := Touch(snap, k, n);
    }

    /** Misses leave the cache alone; a hit touches the key and counts. */
    method Lookup(a: U64, bytes: seq<Byte>) returns (r: LookupResult)
      requires Valid() && nextTick < TWO64 - 1
      modifies this
      ensures Valid() && r == LookedUp(old(Abs()), a, Fnv1a(bytes))
      ensures Abs() == AfterLookup(old(Abs()), a, Fnv1a(bytes))
      ensures r.Hit? ==> var k := Key(a, Fnv1a(bytes));
                         k in old(hitCounts) && hitCounts == old(hitCounts)[k := old(hitCounts)[k] + 1]
      ensures !r.Hit? ==> hitCounts == old(hitCounts)
      ensures nextTick == old(nextTick) + (if r.Hit? then 1 else 0)
      ensures forall was, i :: a in old(addrToHash) && old(addrToHash)[a] == Fnv1a(was) && DifferAt(was, bytes, i) ==>
        r == StaleContent
    {
      if a !in addrToHash { return UnknownAddress; }
      var hash := Hash(bytes);
      forall was, i | DifferAt(was, bytes, i) ensures Fnv1a(was) != hash { OneByteShows(was, bytes, i); }
      if hash != addrToHash[a] { return StaleContent; }
      var k := Key(a, hash);
      if k !in entries { return StaleContent; }
      TouchKey(k);
      r := Hit(entries[k]);
    }

    /** Puts the entry in as the most recent one and indexes its address. */
    method Install(k: Key, e: Entry)
      requires Valid() && nextTick < TWO64 - 1
      modifies this
      ensures Valid() && Abs() == Installed(old(Abs()), k, e) && nextTick == old(nextTick) + 1
      ensures hitCounts == old(hitCounts)[k := 0]
    {
      entries := entries[k := e];
      addrToHash := addrToHash[k.addr := k.hash];
      accessTimes := accessTimes[k := nextTick];
      nextTick := nextTick + 1;
      hitCounts := hitCounts[k := 0];
      snap := Put(snap, k, e);
    }

    method Insert(k: Key, e: Entry) returns (inserted: bool)
      requires Valid() && nextTick < TWO64 - 1
      modifies this
      ensures Valid() && inserted == (k !in old(entries)) && Abs() == Inserted(old(Abs()), k, e)
      ensures inserted ==> WithinCaps(Abs())
      ensures nextTick <= old(nextTick) + 1
    {
      if k in entries { return false; }
      Install(k, e);
      CapsHold(Abs());
      EvictedKeepsRest(Abs());
      MaybeEvict();
      return true;
    }

    /** Only the indexed version of the address is replaced; its hit count stays
        behind. */
    method Upsert(k: Key, e: Entry)
      requires Valid() && nextTick < TWO64 - 1
      modifies this
      ensures Valid() && Abs() == Upserted(old(Abs()), k, e) && WithinCaps(Abs())
      ensures nextTick <= old(nextTick) + 1
    {
      if k.addr in addrToHash && addrToHash[k.addr] != k.hash {
        Displace(k);
      } else {
        DropNothing(Abs());
      }
      Install(k, e);
      CapsHold(Abs());
      EvictedKeepsRest(Abs());
      MaybeEvict();
    }

    /** Between the two halves of `upsert` the index entry goes with the old
        version; the new one is written back at once. */
    method Displace(k: Key)
      requires Valid() && k.addr in addrToHash && addrToHash[k.addr] != k.hash
      modifies this
      ensures Valid() && Abs() == Dropped(old(Abs()), Displaced(old(Abs()), k)) && nextTick == old(nextTick)
      ensures hitCounts == old(hitCounts)
    {
      var oldKey := Key(k.addr, addrToHash[k.addr]);
      DropOne(Abs(), oldKey);
      entries := entries - {oldKey};
      accessTimes := accessTimes - {oldKey};
      addrToHash := addrToHash - {k.addr};
      snap := Drop(snap, {oldKey}, snap.hits);
    }

    /** Drops the indexed version of one address. */
    method DropAddress(a: U64, ghost m0: Model, ghost done: set<U64>)
      requires Valid() && ValidModel(m0) && a in m0.index && a !in done
      requires Abs() == Dropped(m0, KeysAt(m0, done))
      modifies this
      ensures Valid() && Abs() == Dropped(m0, KeysAt(m0, done + {a})) && nextTick == old(nextTick)
    {
      StillIndexed(m0, done, a);
      if a in addrToHash {
        EraseKey(Key(a, addrToHash[a]));
      }
    }

    method PageAddresses(page: U64, size: U64) returns (addrs: set<U64>)
      requires Valid()
      ensures addrs == set a | a in Abs().index && InPage(page, size, a)
    {
      var end := Wrap(page + size);
      addrs := set a | a in addrToHash && page <= a < end;
    }

    method InvalidatePage(page: U64, size: U64)
      requires Valid()
      modifies this
      ensures Valid() && Abs() == Dropped(old(Abs()), PageKeys(old(Abs()), page, size))
      ensures nextTick == old(nextTick)
    {
      var toDrop := PageAddresses(page, size);
      ghost var m0, all := Abs(), toDrop;
      ghost var done: set<U64> := {};
      DropNothing(m0);
      assert KeysAt(m0, done) == {};
      while toDrop != {}
        invariant Valid() && nextTick == old(nextTick) && Abs() == Dropped(m0, KeysAt(m0, done))
        invariant done !! toDrop && done + toDrop == all
        decreases toDrop
      {
        var a :| a in toDrop;
        toDrop := toDrop - {a};
        DropAddress(a, m0, done);
        done := done + {a};
      }
      assert done == all;
      assert KeysAt(m0, all) == PageKeys(m0, page, size);
    }

    method SupersededKeys() returns (keys: set<Key>)
      requires Valid()
      ensures keys == Superseded(Abs())
    {
      keys := set k | k in entries && k.addr in addrToHash && addrToHash[k.addr] != k.hash;
    }

    method DropKey(k: Key, ghost m0: Model, ghost done: set<Key>)
      requires Valid() && ValidModel(m0) && Abs() == Dropped(m0, done)
      modifies this
      ensures Valid() && Abs() == Dropped(m0, done + {k}) && nextTick == old(nextTick)
    {
      DropTwice(m0, done, {k});
      EraseKey(k);
    }

    method EraseAll(keys: set<Key>)
      requires Valid()
      modifies this
      ensures Valid() && Abs() == Dropped(old(Abs()), keys) && nextTick == old(nextTick)
    {
      ghost var m0 := Abs();
      ghost var done: set<Key> := {};
      DropNothing(m0);
      var rest := keys;
      while rest != {}
        invariant Valid() && Abs() == Dropped(m0, done) && nextTick == old(nextTick)
        invariant done + rest == keys
        decreases rest
      {
        var k :| k in rest;
        rest := rest - {k};
        DropKey(k, m0, done);
        done := done + {k};
      }
      assert done == keys;
    }

    method Compact() returns (dropped: nat)
      requires Valid()
      modifies this
      ensures Valid() && Abs() == Dropped(old(Abs()), Superseded(old(Abs())))
      ensures dropped == |Superseded(old(Abs()))| && nextTick == old(nextTick)
    {
      var keys := SupersededKeys();
      dropped := |keys|;
      EraseAll(keys);
    }

    /** The caps are only read by the next store. */
    method SetMaxEntries(n: nat)
      requires Valid()
      modifies this
      ensures Valid() && Abs() == old(Abs()).(maxEntries := n) && nextTick == old(nextTick)
      ensures hitCounts == old(hitCounts)
    {
      maxEntries := n;
      snap := Recap(snap, n, maxBytes);
    }

    method SetMaxBytes(n: nat)
      requires Valid()
      modifies this
      ensures Valid() && Abs() == old(Abs()).(maxBytes := n) && nextTick == old(nextTick) && hitCounts == old(hitCounts)
    {
      maxBytes := n;
      snap := Recap(snap, maxEntries, n);
    }

    /** The commit step of loading: the maps are replaced and every entry stamped
        anew, in no particular order. Nothing is evicted. */
    method CommitLoaded(loaded: map<Key, Entry>, index: map<U64, U64>) returns (ghost image: Model)
      requires Valid() && |loaded| < TWO64 - 1
      requires forall a :: a in index ==> Key(a, index[a]) in loaded
      modifies this
      ensures Valid() && ValidModel(image) && image.entries == loaded && image.index == index
      ensures Abs() == Applied(old(Abs()), Load(image))
      ensures forall k :: k in loaded ==> k in hitCounts && hitCounts[k] == 0
    {
      ghost var s;
      var times, hits, tick;
      times, hits, tick, s := Stamp(loaded, index);
      image := s.m;
      entries, addrToHash := loaded, index;
      accessTimes, hitCounts, nextTick := times, hits, tick;
      snap := Recap(s, maxEntries, maxBytes);
    }
  }

  /** The keys outside `rest` have been stamped, in the given order. */
  ghost predicate StampedBut(keys: set<Key>, rest: set<Key>, times: map<Key, U64>, hits: map<Key, nat>, tick: int,
                             order: seq<Key>) {
    && rest <= keys && tick + |rest| == |keys| + 1
    && NoDup(order) && (forall k :: k in order <==> k in keys - rest)
    && times.Keys == keys - rest && hits.Keys == keys - rest && Rising(times, order)
    && (forall k :: k in times ==> times[k] < tick) && (forall k :: k in hits ==> hits[k] == 0)
  }

  lemma StampOne(keys: set<Key>, rest: set<Key>, times: map<Key, U64>, hits: map<Key, nat>, tick: U64,
                 order: seq<Key>, k: Key)
    requires StampedBut(keys, rest, times, hits, tick, order) && k in rest
    ensures StampedBut(keys, rest - {k}, times[k := tick], hits[k := 0], tick + 1, order + [k])
  {
    WithoutAbsent(order, {k});
    RisingTouched(times, order, k, tick);
    SnocNoDup(order, k);
    assert times[k := tick].Keys == keys - (rest - {k});
    assert hits[k := 0].Keys == keys - (rest - {k});
  }

  /** Fresh ticks for a set of keys, handed out in any order. */
  method Stamped(keys: set<Key>) returns (times: map<Key, U64>, hits: map<Key, nat>, tick: U64, ghost order: seq<Key>)
    requires |keys| < TWO64 - 1
    ensures StampedBut(keys, {}, times, hits, tick, order)
  {
    times, hits, tick, order := map[], map[], 1, [];
    var rest := keys;
    while rest != {}
      invariant StampedBut(keys, rest, times, hits, tick, order)
      decreases rest
    {
      var k :| k in rest;
      StampOne(keys, rest, times, hits, tick, order, k);
      rest := rest - {k};
      times, hits, tick, order := times[k := tick], hits[k := 0], tick + 1, order + [k];
    }
  }

  lemma StampedSound(loaded: map<Key, Entry>, index: map<U64, U64>,
                     times: map<Key, U64>, hits: map<Key, nat>, tick: U64, order: seq<Key>)
    requires StampedBut(loaded.Keys, {}, times, hits, tick, order)
    requires forall a :: a in index ==> Key(a, index[a]) in loaded
    ensures Sound(Model(order, loaded, index, 0, 0), times, hits, tick)
  {
    var m := Model(order, loaded, index, 0, 0);
    forall a | a in m.index ensures Indexed(m, a) { }
  }

  /** The stamped maps, and the recency list they agree with. */
  method Stamp(loaded: map<Key, Entry>, index: map<U64, U64>)
    returns (times: map<Key, U64>, hits: map<Key, nat>, tick: U64, ghost s: Snapshot)
    requires |loaded| < TWO64 - 1 && forall a :: a in index ==> Key(a, index[a]) in loaded
    ensures s.m.entries == loaded && s.m.index == index && s.times == times && s.hits == hits && s.tick == tick
    ensures forall k :: k in loaded ==> k in hits && hits[k] == 0
  {
    ghost var order;
    times, hits, tick, order := Stamped(loaded.Keys);
    StampedSound(loaded, index, times, hits, tick, order);
    s := Snap(Model(order, loaded, index, 0, 0), times, hits, tick);
  }

  function KeysAt(m: Model, addrs: set<U64>): set<Key> {
    set a | a in addrs && a in m.index :: Key(a, m.index[a])
  }

  /** Dropping the versions of some addresses leaves the others indexed. */
  lemma StillIndexed(m: Model, done: set<U64>, a: U64)
    requires ValidModel(m) && a in m.index && a !in done
    ensures a in Dropped(m, KeysAt(m, done)).index && Dropped(m, KeysAt(m, done)).index[a] == m.index[a]
    ensures Dropped(Dropped(m, KeysAt(m, done)), {Key(a, m.index[a])}) == Dropped(m, KeysAt(m, done + {a}))
  {
    DropTwice(m, KeysAt(m, done), {Key(a, m.index[a])});
    assert KeysAt(m, done) + {Key(a, m.index[a])} == KeysAt(m, done + {a});
  }

  lemma DropAbsent(m: Model, k: Key)
    requires ValidModel(m) && k !in m.entries
    ensures Dropped(m, {k}) == m
  {
    WithoutAbsent(m.order, {k});
    assert m.entries - {k} == m.entries;
    forall a | a in m.index ensures Key(a, m.index[a]) !in {k} { assert Indexed(m, a); }
  }

  lemma {:induction false} OrderSize(s: seq<Key>, keys: set<Key>)
    requires NoDup(s) && forall k :: k in s <==> k in keys
    ensures |s| == |keys|
    decreases |s|
  {
    if s == [] {
      assert keys == {};
    } else {
      var n := |s| - 1;
      assert s == s[..n] + [s[n]];
      NoDupInit(s);
      OrderSize(s[..n], keys - {s[n]});
    }
  }

  lemma OrderEmpty(m: Model)
    requires ValidModel(m)
    ensures m.order == [] <==> m.entries == map[]
  {
    if m.order != [] { assert m.order[0] in m.entries; }
    if m.entries != map[] {
      var k :| k in m.entries;
      assert k in m.order;
    }
  }
}
