/** What the translation cache is meant to be: a list of keys from least to most
    recently touched, their entries, and for each guest address the content hash
    seen last. */
module CacheModel {
  import opened Words

  datatype Key = Key(addr: U64, hash: U64)
  datatype Entry = Entry(guestSize: nat, contentHash: U64, code: seq<Byte>)

  datatype Model = Model(order: seq<Key>, entries: map<Key, Entry>, index: map<U64, U64>,
                         maxEntries: nat, maxBytes: nat)

  predicate Same(s: seq<Key>, i: int, j: int) { 0 <= i < |s| && 0 <= j < |s| && s[i] == s[j] }

  ghost predicate NoDup(s: seq<Key>) {
    forall i, j {:trigger Same(s, i, j)} :: Same(s, i, j) ==> i == j
  }

  lemma NoDupInit(s: seq<Key>)
    requires NoDup(s) && s != []
    ensures NoDup(s[..|s| - 1]) && s[|s| - 1] !in s[..|s| - 1]
  {
    var n := |s| - 1;
    forall i, j | Same(s[..n], i, j) ensures i == j { assert Same(s, i, j); }
    if s[n] in s[..n] {
      var i :| 0 <= i < n && s[i] == s[n];
      assert Same(s, i, n);
    }
  }

  predicate Indexed(m: Model, a: U64) { a in m.index && Key(a, m.index[a]) in m.entries }

  ghost predicate ValidModel(m: Model) {
    && NoDup(m.order)
    && (forall k :: k in m.order <==> k in m.entries)
    && (forall a :: a in m.index ==> Indexed(m, a))
  }

  // ------------------------------------------------------------------
  // Operations.
  // ------------------------------------------------------------------

  function Without(s: seq<Key>, dead: set<Key>): seq<Key> {
    if s == [] then [] else if s[|s| - 1] in dead then Without(s[..|s| - 1], dead)
    else Without(s[..|s| - 1], dead) + [s[|s| - 1]]
  }

  function Touched(s: seq<Key>, k: Key): seq<Key> { Without(s, {k}) + [k] }

  /** Dropping entries also drops the addresses whose indexed version they are. */
  function Dropped(m: Model, dead: set<Key>): Model {
    m.(order := Without(m.order, dead), entries := m.entries - dead,
       index := map a | a in m.index && Key(a, m.index[a]) !in dead :: m.index[a])
  }

  /** Code bytes of the listed keys. */
  function Total(s: seq<Key>, entries: map<Key, Entry>): nat {
    if s == [] then 0
    else Total(s[..|s| - 1], entries) + Size(entries, s[|s| - 1])
  }

  function Size(entries: map<Key, Entry>, k: Key): nat { if k in entries then |entries[k].code| else 0 }

  predicate OverCap(m: Model) {
    || (m.maxEntries != 0 && |m.order| > m.maxEntries)
    || (m.maxBytes != 0 && Total(m.order, m.entries) > m.maxBytes)
  }

  /** Oldest first until both caps hold. */
  function Evicted(m: Model): Model
    requires ValidModel(m)
    decreases |m.order|
  {
    if m.order == [] || !OverCap(m) then m
    else
      DropKeeps(m, {m.order[0]});
      WithoutFirst(m.order);
      Evicted(Dropped(m, {m.order[0]}))
  }

  datatype LookupResult = Hit(entry: Entry) | UnknownAddress | StaleContent

  function LookedUp(m: Model, a: U64, hash: U64): LookupResult {
    if a !in m.index then UnknownAddress
    else if hash != m.index[a] || Key(a, hash) !in m.entries then StaleContent
    else Hit(m.entries[Key(a, hash)])
  }

  function AfterLookup(m: Model, a: U64, hash: U64): Model {
    if LookedUp(m, a, hash).Hit? then m.(order := Touched(m.order, Key(a, hash))) else m
  }

  function Installed(m: Model, k: Key, e: Entry): Model {
    m.(order := Touched(m.order, k), entries := m.entries[k := e], index := m.index[k.addr := k.hash])
  }

  function Inserted(m: Model, k: Key, e: Entry): Model
    requires ValidModel(m)
  {
    if k in m.entries then m else InstallKeeps(m, k, e); Evicted(Installed(m, k, e))
  }

  /** The version of the address that an update replaces: the indexed one, if it
      is another. */
  function Displaced(m: Model, k: Key): set<Key> {
    if k.addr in m.index && m.index[k.addr] != k.hash then {Key(k.addr, m.index[k.addr])} else {}
  }

  function Upserted(m: Model, k: Key, e: Entry): Model
    requires ValidModel(m)
  {
    DropKeeps(m, Displaced(m, k));
    InstallKeeps(Dropped(m, Displaced(m, k)), k, e);
    Evicted(Installed(Dropped(m, Displaced(m, k)), k, e))
  }

  /** The half-open range of addresses, its end computed modulo 2^64. */
  predicate InPage(page: U64, size: U64, a: U64) { page <= a < Wrap(page + size) }

  function PageKeys(m: Model, page: U64, size: U64): set<Key> {
    set a | a in m.index && InPage(page, size, a) :: Key(a, m.index[a])
  }

  predicate IsSuperseded(m: Model, k: Key) { k in m.entries && k.addr in m.index && m.index[k.addr] != k.hash }

  function Superseded(m: Model): set<Key> { set k | k in m.entries && IsSuperseded(m, k) }

  // ------------------------------------------------------------------
  // Lists without duplicates.
  // ------------------------------------------------------------------

  lemma {:induction false} WithoutHas(s: seq<Key>, dead: set<Key>, x: Key)
    ensures x in Without(s, dead) <==> x in s && x !in dead
  {
    if s != [] {
      WithoutHas(s[..|s| - 1], dead, x);
      assert s == s[..|s| - 1] + [s[|s| - 1]];
    }
  }

  lemma {:induction false} WithoutNoDup(s: seq<Key>, dead: set<Key>)
    requires NoDup(s)
    ensures NoDup(Without(s, dead))
  {
    if s != [] {
      var n := |s| - 1;
      NoDupInit(s);
      WithoutNoDup(s[..n], dead);
      WithoutHas(s[..n], dead, s[n]);
      if s[n] !in dead { SnocNoDup(Without(s[..n], dead), s[n]); }
    }
  }

  lemma {:induction false} WithoutAbsent(s: seq<Key>, dead: set<Key>)
    requires forall x :: x in s ==> x !in dead
    ensures Without(s, dead) == s
  {
    if s != [] {
      var n := |s| - 1;
      assert s == s[..n] + [s[n]];
      WithoutAbsent(s[..n], dead);
    }
  }

  lemma {:induction false} WithoutFirst(s: seq<Key>)
    requires NoDup(s) && s != []
    ensures Without(s, {s[0]}) == s[1..]
    decreases |s|
  {
    var n := |s| - 1;
    if n == 0 {
      assert s[..0] == [] && s[1..] == [];
    } else {
      NoDupInit(s);
      WithoutFirst(s[..n]);
      assert s[..n][0] == s[0] && s[0] in s[..n];
      assert s[..n][1..] + [s[n]] == s[1..];
    }
  }

  lemma {:induction false} WithoutTwice(s: seq<Key>, a: set<Key>, b: set<Key>)
    ensures Without(Without(s, a), b) == Without(s, a + b)
  {
    if s != [] {
      var n := |s| - 1;
      WithoutTwice(s[..n], a, b);
      if s[n] !in a {
        var w := Without(s[..n], a);
        assert (w + [s[n]])[..|w|] == w;
      }
    }
  }

  lemma SnocNoDup(s: seq<Key>, k: Key)
    requires NoDup(s) && k !in s
    ensures NoDup(s + [k])
  {
    forall i, j | Same(s + [k], i, j) ensures i == j {
      if i < |s| && j < |s| { assert Same(s, i, j); }
    }
  }

  lemma TouchedKeeps(s: seq<Key>, k: Key)
    requires NoDup(s)
    ensures NoDup(Touched(s, k)) && forall x :: x in Touched(s, k) <==> x in s || x == k
  {
    WithoutNoDup(s, {k});
    forall x ensures x in Without(s, {k}) <==> x in s && x != k { WithoutHas(s, {k}, x); }
    SnocNoDup(Without(s, {k}), k);
  }

  // ------------------------------------------------------------------
  // Every operation keeps the model valid.
  // ------------------------------------------------------------------

  lemma DropKeeps(m: Model, dead: set<Key>)
    requires ValidModel(m)
    ensures ValidModel(Dropped(m, dead))
  {
    var m1 := Dropped(m, dead);
    WithoutNoDup(m.order, dead);
    forall x ensures x in m1.order <==> x in m1.entries { WithoutHas(m.order, dead, x); }
    forall a | a in m1.index ensures Indexed(m1, a) { assert Indexed(m, a); }
  }

  lemma DropTwice(m: Model, a: set<Key>, b: set<Key>)
    ensures Dropped(Dropped(m, a), b) == Dropped(m, a + b)
  {
    WithoutTwice(m.order, a, b);
    assert m.entries - a - b == m.entries - (a + b);
  }

  lemma DropNothing(m: Model)
    ensures Dropped(m, {}) == m
  {
    WithoutAbsent(m.order, {});
    assert m.entries - {} == m.entries;
  }

  lemma InstallKeeps(m: Model, k: Key, e: Entry)
    requires ValidModel(m)
    ensures ValidModel(Installed(m, k, e))
  {
    var m1 := Installed(m, k, e);
    TouchedKeeps(m.order, k);
    forall a | a in m1.index ensures Indexed(m1, a) { if a != k.addr { assert Indexed(m, a); } }
  }

  lemma LookupKeeps(m: Model, a: U64, hash: U64)
    requires ValidModel(m)
    ensures ValidModel(AfterLookup(m, a, hash))
  {
    var m1 := AfterLookup(m, a, hash);
    if LookedUp(m, a, hash).Hit? {
      TouchedKeeps(m.order, Key(a, hash));
      forall b | b in m1.index ensures Indexed(m1, b) { assert Indexed(m, b); }
    }
  }

  /** The caps would still be exceeded after dropping only the `i` oldest. */
  predicate Over(m: Model, i: nat)
    requires i <= |m.order|
  {
    || (m.maxEntries != 0 && |m.order| - i > m.maxEntries)
    || (m.maxBytes != 0 && Total(m.order[i..], m.entries) > m.maxBytes)
  }

  /** Eviction drops a prefix of the order, no longer than needed: afterwards both
      caps hold or nothing is left, and one key fewer would not have done. */
  lemma {:induction false} EvictedIsShortest(m: Model) returns (n: nat)
    requires ValidModel(m)
    ensures ValidModel(Evicted(m)) && n <= |m.order|
    ensures Evicted(m).order == m.order[n..]
    ensures Evicted(m).order == [] || !OverCap(Evicted(m))
    ensures forall i :: 0 <= i < n ==> Over(m, i)
    decreases |m.order|
  {
    if m.order == [] || !OverCap(m) {
      n := 0;
    } else {
      var m1 := Dropped(m, {m.order[0]});
      DropKeeps(m, {m.order[0]});
      WithoutFirst(m.order);
      var n1 := EvictedIsShortest(m1);
      n := n1 + 1;
      forall i | 0 <= i < n ensures Over(m, i) {
        if i == 0 {
          assert m.order[0..] == m.order;
        } else {
          assert Over(m1, i - 1);
          assert m1.order[i - 1..] == m.order[i..];
          TotalDropped(m.order[i..], m.entries, m.order[0]);
        }
      }
    }
  }

  lemma {:induction false} TotalDropped(s: seq<Key>, entries: map<Key, Entry>, k: Key)
    requires k !in s
    ensures Total(s, entries - {k}) == Total(s, entries)
  {
    if s != [] {
      assert s[|s| - 1] in s;
      TotalDropped(s[..|s| - 1], entries, k);
    }
  }

  /** What survives eviction is untouched. */
  lemma {:induction false} EvictedKeepsRest(m: Model)
    requires ValidModel(m)
    ensures Evicted(m).maxEntries == m.maxEntries && Evicted(m).maxBytes == m.maxBytes
    ensures forall k :: k in Evicted(m).entries ==> k in m.entries && Evicted(m).entries[k] == m.entries[k]
    ensures forall a :: a in Evicted(m).index ==> a in m.index && Evicted(m).index[a] == m.index[a]
    ensures forall a :: a in m.index && Key(a, m.index[a]) in Evicted(m).entries ==> a in Evicted(m).index
    decreases |m.order|
  {
    if m.order != [] && OverCap(m) {
      DropKeeps(m, {m.order[0]});
      WithoutFirst(m.order);
      EvictedKeepsRest(Dropped(m, {m.order[0]}));
    }
  }

  /** Both caps hold of whatever is left. */
  lemma CapsHold(m: Model)
    requires ValidModel(m)
    ensures var m1 := Evicted(m);
            && (m.maxEntries != 0 ==> |m1.order| <= m.maxEntries)
            && (m.maxBytes != 0 ==> Total(m1.order, m1.entries) <= m.maxBytes)
  {
    var n := EvictedIsShortest(m);
    EvictedKeepsRest(m);
  }

  lemma InsertKeeps(m: Model, k: Key, e: Entry)
    requires ValidModel(m)
    ensures ValidModel(Inserted(m, k, e)) && ValidModel(Upserted(m, k, e))
  {
    InstallKeeps(m, k, e);
    DropKeeps(m, Displaced(m, k));
    InstallKeeps(Dropped(m, Displaced(m, k)), k, e);
    var _ := EvictedIsShortest(Installed(m, k, e));
    var _ := EvictedIsShortest(Installed(Dropped(m, Displaced(m, k)), k, e));
  }

  // ------------------------------------------------------------------
  // Laws.
  // ------------------------------------------------------------------

  /** A lookup hits exactly when the address is indexed under the hash: the case
      of an indexed version without an entry cannot arise. */
  lemma LookupExact(m: Model, a: U64, hash: U64)
    requires ValidModel(m)
    ensures LookedUp(m, a, hash).Hit? <==> a in m.index && m.index[a] == hash
    ensures LookedUp(m, a, hash).StaleContent? <==> a in m.index && m.index[a] != hash
  {
    if a in m.index { assert Indexed(m, a); }
  }

  lemma {:induction false} TotalAtLeast(s: seq<Key>, entries: map<Key, Entry>, k: Key)
    requires k in s
    ensures Total(s, entries) >= Size(entries, k)
  {
    var n := |s| - 1;
    if s[n] != k {
      assert s == s[..n] + [s[n]];
      TotalAtLeast(s[..n], entries, k);
    }
  }

  /** The newest key survives eviction exactly when it fits the byte cap alone; if
      it does not, nothing at all is left. */
  lemma NewestSurvives(m: Model, k: Key)
    requires ValidModel(m) && m.order != [] && m.order[|m.order| - 1] == k
    ensures k in Evicted(m).entries <==> !(m.maxBytes != 0 && Size(m.entries, k) > m.maxBytes)
    ensures k !in Evicted(m).entries ==> Evicted(m).order == []
  {
    var n := EvictedIsShortest(m);
    EvictedKeepsRest(m);
    var last := |m.order| - 1;
    if n <= last {
      assert m.order[n..][last - n] == k;
      TotalAtLeast(m.order[n..], Evicted(m).entries, k);
    } else {
      assert Over(m, last);
      assert m.order[last..] == [k];
      assert Total([k], m.entries) == Size(m.entries, k);
    }
  }

  /** What was just inserted is found again, with what was inserted, unless it
      alone exceeds the byte cap. */
  lemma InsertThenLookup(m: Model, k: Key, e: Entry)
    requires ValidModel(m) && k !in m.entries
    ensures LookedUp(Inserted(m, k, e), k.addr, k.hash)
         == if m.maxBytes != 0 && |e.code| > m.maxBytes then UnknownAddress else Hit(e)
  {
    InstallKeeps(m, k, e);
    FoundAfterInstall(m, k, e);
  }

  lemma FoundAfterInstall(m: Model, k: Key, e: Entry)
    requires ValidModel(m) && ValidModel(Installed(m, k, e))
    ensures LookedUp(Evicted(Installed(m, k, e)), k.addr, k.hash)
         == if m.maxBytes != 0 && |e.code| > m.maxBytes then UnknownAddress else Hit(e)
  {
    var m1 := Installed(m, k, e);
    NewestSurvives(m1, k);
    EvictedKeepsRest(m1);
    var n := EvictedIsShortest(m1);
    LookupExact(Evicted(m1), k.addr, k.hash);
    assert k.addr in Evicted(m1).index ==> Indexed(Evicted(m1), k.addr);
  }

  lemma UpsertThenLookup(m: Model, k: Key, e: Entry)
    requires ValidModel(m)
    ensures LookedUp(Upserted(m, k, e), k.addr, k.hash)
         == if m.maxBytes != 0 && |e.code| > m.maxBytes then UnknownAddress else Hit(e)
  {
    var m1 := Dropped(m, Displaced(m, k));
    DropKeeps(m, Displaced(m, k));
    InstallKeeps(m1, k, e);
    FoundAfterInstall(m1, k, e);
  }

  /** After invalidation no address of the page is found; the others are looked up
      as before. */
  lemma InvalidateExact(m: Model, page: U64, size: U64, a: U64, hash: U64)
    requires ValidModel(m)
    ensures LookedUp(Dropped(m, PageKeys(m, page, size)), a, hash)
         == if InPage(page, size, a) then UnknownAddress else LookedUp(m, a, hash)
  {
    var dead := PageKeys(m, page, size);
    if a in m.index {
      assert Indexed(m, a);
      assert Key(a, m.index[a]) in dead <==> InPage(page, size, a);
    }
  }

  /** Compaction changes no lookup and leaves one version per indexed address. */
  lemma CompactExact(m: Model, a: U64, hash: U64)
    requires ValidModel(m)
    ensures LookedUp(Dropped(m, Superseded(m)), a, hash) == LookedUp(m, a, hash)
    ensures forall k :: k in Dropped(m, Superseded(m)).entries && k.addr in m.index ==> k.hash == m.index[k.addr]
  {
    if a in m.index { assert Indexed(m, a); }
  }

  // ------------------------------------------------------------------
  // Versions that lose their address.
  // ------------------------------------------------------------------

  /** The version its address is indexed under. */
  predicate Current(m: Model, k: Key) { k.addr in m.index && m.index[k.addr] == k.hash }

  /** An entry whose address is not indexed at all. */
  predicate Stranded(m: Model, k: Key) { k in m.entries && k.addr !in m.index }

  /** Inserting another version of an address supersedes the one before. */
  lemma InsertSupersedes(m: Model, k: Key, k2: Key, e2: Entry) returns (m1: Model)
    requires ValidModel(m) && m.maxEntries == 0 && m.maxBytes == 0
    requires k in m.entries && k2 !in m.entries && k2.addr == k.addr
    ensures m1 == Inserted(m, k2, e2) && ValidModel(m1) && IsSuperseded(m1, k)
    ensures m1.index == m.index[k2.addr := k2.hash] && m1.maxEntries == 0 && m1.maxBytes == 0
  {
    InstallKeeps(m, k2, e2);
    m1 := Inserted(m, k2, e2);
  }

  /** Invalidating a page strands exactly the superseded versions in it, besides those stranded before. */
  lemma InvalidateStrands(m: Model, page: U64, size: U64, k: Key)
    requires ValidModel(m)
    ensures Stranded(Dropped(m, PageKeys(m, page, size)), k) <==>
      k in m.entries && (k.addr !in m.index || (InPage(page, size, k.addr) && m.index[k.addr] != k.hash))
  {
    var dead := PageKeys(m, page, size);
    if k.addr in m.index {
      assert Indexed(m, k.addr);
      assert Key(k.addr, m.index[k.addr]) in dead <==> InPage(page, size, k.addr);
    }
  }

  /** The addresses of [page, page + size), as the interface has it. */
  predicate InRange(page: U64, size: U64, a: U64) { page <= a < page + size }

  lemma PageIsRange(page: U64, size: U64, a: U64)
    ensures InPage(page, size, a) <==> InRange(page, size, a) && page + size < TWO64
  {
    if page + size < TWO64 {
      ModUnique(page + size, TWO64, 0, page + size);
    } else {
      ModUnique(page + size, TWO64, 1, page + size - TWO64);
    }
  }

  lemma InvalidateLeaves(m: Model, page: U64, size: U64, k: Key)
    requires ValidModel(m)
    ensures k in Dropped(m, PageKeys(m, page, size)).entries <==>
      k in m.entries && !(InRange(page, size, k.addr) && page + size < TWO64 && Current(m, k))
  {
    PageIsRange(page, size, k.addr);
    assert k in PageKeys(m, page, size) <==> InPage(page, size, k.addr) && Current(m, k);
  }

  /** What `invalidate_page` promises: no entry of the range is left. It holds exactly if every entry
      of the range is the current version of its address and the range ends below 2^64. */
  lemma InvalidateComplete(m: Model, page: U64, size: U64)
    requires ValidModel(m)
    ensures (forall k :: k in Dropped(m, PageKeys(m, page, size)).entries ==> !InRange(page, size, k.addr)) <==>
      (forall k :: k in m.entries && InRange(page, size, k.addr) ==> Current(m, k) && page + size < TWO64)
  {
    var m1 := Dropped(m, PageKeys(m, page, size));
    forall k ensures k in m1.entries <==>
        k in m.entries && !(InRange(page, size, k.addr) && page + size < TWO64 && Current(m, k))
    {
      InvalidateLeaves(m, page, size, k);
    }
  }

  /** A stranded version stays: inserting it again is refused, no lookup finds it and compaction keeps it. */
  lemma StrandedStays(m: Model, k: Key, e: Entry)
    requires ValidModel(m) && Stranded(m, k)
    ensures Inserted(m, k, e) == m && LookedUp(m, k.addr, k.hash) == UnknownAddress
    ensures k in Dropped(m, Superseded(m)).entries
  {
  }

  /** What `upsert` promises before it evicts: the new version is the only one of its address. It holds
      exactly if no other version was there but the current one. */
  lemma UpsertReplaces(m: Model, k: Key, e: Entry)
    requires ValidModel(m)
    ensures (forall j :: j in Installed(Dropped(m, Displaced(m, k)), k, e).entries && j.addr == k.addr ==> j == k) <==>
      (forall j :: j in m.entries && j.addr == k.addr && j != k ==> Current(m, j))
  {
    var m1 := Installed(Dropped(m, Displaced(m, k)), k, e);
    forall j ensures j in m1.entries <==> j == k || (j in m.entries && !(j.addr == k.addr && j != k && Current(m, j))) {
      assert j in Displaced(m, k) <==> j.addr == k.addr && j != k && Current(m, j);
    }
  }

  const EMPTY: Model := Model([], map[], map[], 0, 0)

  lemma FirstVersion(a: U64, e: Entry) returns (m: Model)
    ensures ValidModel(m) && m == Inserted(EMPTY, Key(a, 1), e) && m.maxEntries == 0 && m.maxBytes == 0
    ensures m.entries == map[Key(a, 1) := e] && m.index == map[a := 1]
  {
    InsertKeeps(EMPTY, Key(a, 1), e);
    m := Inserted(EMPTY, Key(a, 1), e);
  }

  /** Two versions of one address in an empty cache: the first is superseded. */
  lemma TwoVersions(a: U64, e: Entry) returns (m: Model)
    ensures ValidModel(m) && m == Inserted(Inserted(EMPTY, Key(a, 1), e), Key(a, 2), e)
    ensures IsSuperseded(m, Key(a, 1)) && m.index == map[a := 2] && m.maxEntries == 0 && m.maxBytes == 0
  {
    var m1 := FirstVersion(a, e);
    m := InsertSupersedes(m1, Key(a, 1), Key(a, 2), e);
  }

  /** ... so a page invalidated after two inserts still holds it ... */
  lemma PageNotEmptied(e: Entry)
    ensures var m := Inserted(Inserted(EMPTY, Key(4096, 1), e), Key(4096, 2), e);
            Stranded(Dropped(m, PageKeys(m, 4096, 4096)), Key(4096, 1))
  {
    var m := TwoVersions(4096, e);
    ModUnique(8192, TWO64, 0, 8192);
    InvalidateStrands(m, 4096, 4096, Key(4096, 1));
  }

  /** ... an update to a third version leaves it behind ... */
  lemma UpsertLeavesVersion(a: U64, e: Entry) returns (m: Model)
    ensures ValidModel(m) && m == Inserted(Inserted(EMPTY, Key(a, 1), e), Key(a, 2), e)
    ensures Key(a, 1) in Upserted(m, Key(a, 3), e).entries
  {
    m := TwoVersions(a, e);
  }

  /** ... and the last page of the address space is not invalidated at all. */
  lemma LastPageKept(e: Entry)
    ensures var a := TWO64 - 4096;
            var m := Inserted(EMPTY, Key(a, 1), e);
            Dropped(m, PageKeys(m, a, 4096)) == m && LookedUp(m, a, 1) == Hit(e)
  {
    var a: U64 := TWO64 - 4096;
    var m := Inserted(EMPTY, Key(a, 1), e);
    InsertKeeps(EMPTY, Key(a, 1), e);
    InsertThenLookup(EMPTY, Key(a, 1), e);
    forall b: U64 ensures !InPage(a, 4096, b) { PageIsRange(a, 4096, b); }
    assert PageKeys(m, a, 4096) == {};
    DropNothing(m);
  }

  // ------------------------------------------------------------------
  // Histories.
  // ------------------------------------------------------------------

  /** A load brings the entries and the index of its image in some order, and no caps. */
  datatype Op =
    | Lookup(a: U64, hash: U64)
    | Insert(k: Key, e: Entry)
    | Upsert(k: Key, e: Entry)
    | InvalidatePage(page: U64, size: U64)
    | Compact
    | SetMaxEntries(n: nat)
    | SetMaxBytes(n: nat)
    | Load(image: Model)

  ghost predicate OpOk(op: Op) { op.Load? ==> ValidModel(op.image) }

  ghost predicate OpsOk(ops: seq<Op>) { forall i :: 0 <= i < |ops| ==> OpOk(ops[i]) }

  function Applied(m: Model, op: Op): Model
    requires ValidModel(m)
  {
    match op
    case Lookup(a, h) => AfterLookup(m, a, h)
    case Insert(k, e) => Inserted(m, k, e)
    case Upsert(k, e) => Upserted(m, k, e)
    case InvalidatePage(p, n) => Dropped(m, PageKeys(m, p, n))
    case Compact => Dropped(m, Superseded(m))
    case SetMaxEntries(n) => m.(maxEntries := n)
    case SetMaxBytes(n) => m.(maxBytes := n)
    case Load(image) => image.(maxEntries := m.maxEntries, maxBytes := m.maxBytes)
  }

  /** The caps play no part in validity. */
  lemma CapsFree(m: Model, n: nat, b: nat)
    requires ValidModel(m)
    ensures ValidModel(m.(maxEntries := n, maxBytes := b))
  {
    var m1 := m.(maxEntries := n, maxBytes := b);
    forall a | a in m1.index ensures Indexed(m1, a) { assert Indexed(m, a); }
  }

  lemma AppliedKeeps(m: Model, op: Op)
    requires ValidModel(m) && OpOk(op)
    ensures ValidModel(Applied(m, op))
  {
    match op
    case Lookup(a, h) => LookupKeeps(m, a, h);
    case Insert(k, e) => InsertKeeps(m, k, e);
    case Upsert(k, e) => InsertKeeps(m, k, e);
    case InvalidatePage(p, n) => DropKeeps(m, PageKeys(m, p, n));
    case Compact => DropKeeps(m, Superseded(m));
    case SetMaxEntries(n) => CapsFree(m, n, m.maxBytes);
    case SetMaxBytes(n) => CapsFree(m, m.maxEntries, n);
    case Load(image) => CapsFree(image, m.maxEntries, m.maxBytes);
  }

  function Replayed(m: Model, ops: seq<Op>): (m1: Model)
    requires ValidModel(m) && OpsOk(ops)
    ensures ValidModel(m1)
    decreases |ops|
  {
    if ops == [] then m else AppliedKeeps(m, ops[0]); Replayed(Applied(m, ops[0]), ops[1..])
  }

  ghost predicate WithinCaps(m: Model) {
    && (m.maxEntries != 0 ==> |m.order| <= m.maxEntries)
    && (m.maxBytes != 0 ==> Total(m.order, m.entries) <= m.maxBytes)
  }

  lemma {:induction false} WithoutTotal(s: seq<Key>, dead: set<Key>, entries: map<Key, Entry>)
    ensures Total(Without(s, dead), entries) <= Total(s, entries) && |Without(s, dead)| <= |s|
  {
    if s != [] {
      var n := |s| - 1;
      WithoutTotal(s[..n], dead, entries);
      if s[n] !in dead {
        var w := Without(s[..n], dead);
        assert (w + [s[n]])[..|w|] == w;
      }
    }
  }

  lemma {:induction false} TotalAgree(s: seq<Key>, e1: map<Key, Entry>, e2: map<Key, Entry>)
    requires forall k :: k in s ==> Size(e1, k) == Size(e2, k)
    ensures Total(s, e1) == Total(s, e2)
  {
    if s != [] {
      assert s == s[..|s| - 1] + [s[|s| - 1]];
      TotalAgree(s[..|s| - 1], e1, e2);
    }
  }

  lemma {:induction false} WithoutOne(s: seq<Key>, k: Key, entries: map<Key, Entry>)
    requires NoDup(s) && k in s
    ensures Total(Without(s, {k}), entries) + Size(entries, k) == Total(s, entries)
    ensures |Without(s, {k})| + 1 == |s|
  {
    var n := |s| - 1;
    NoDupInit(s);
    assert s == s[..n] + [s[n]];
    if s[n] == k {
      WithoutAbsent(s[..n], {k});
    } else {
      WithoutOne(s[..n], k, entries);
      var w := Without(s[..n], {k});
      assert (w + [s[n]])[..|w|] == w;
    }
  }

  lemma TouchKeepsCaps(m: Model, k: Key)
    requires ValidModel(m) && k in m.entries && WithinCaps(m)
    ensures WithinCaps(m.(order := Touched(m.order, k)))
  {
    WithoutOne(m.order, k, m.entries);
    var w := Without(m.order, {k});
    assert (w + [k])[..|w|] == w;
  }

  lemma DropKeepsCaps(m: Model, dead: set<Key>)
    requires ValidModel(m) && WithinCaps(m)
    ensures WithinCaps(Dropped(m, dead))
  {
    WithoutTotal(m.order, dead, m.entries);
    forall k | k in Without(m.order, dead) ensures Size(m.entries - dead, k) == Size(m.entries, k) {
      WithoutHas(m.order, dead, k);
    }
    TotalAgree(Without(m.order, dead), m.entries, m.entries - dead);
  }

  lemma StoreWithinCaps(m: Model, k: Key, e: Entry)
    requires ValidModel(m)
    ensures k !in m.entries ==> WithinCaps(Inserted(m, k, e))
    ensures WithinCaps(Upserted(m, k, e))
  {
    InstallKeeps(m, k, e);
    CapsHold(Installed(m, k, e));
    EvictedKeepsRest(Installed(m, k, e));
    DropKeeps(m, Displaced(m, k));
    var m1 := Dropped(m, Displaced(m, k));
    InstallKeeps(m1, k, e);
    CapsHold(Installed(m1, k, e));
    EvictedKeepsRest(Installed(m1, k, e));
  }

  /** A cap that is off or no lower than the one before. */
  predicate NotLowered(before: nat, after: nat) { after == 0 || (before != 0 && before <= after) }

  /** Do the caps surely hold after the operation, given whether they surely held before it? A store
      brings them about; a load or a lowered cap may break them. */
  predicate SafeAfter(m: Model, op: Op, safe: bool) {
    match op
    case Insert(k, _) => safe || k !in m.entries
    case Upsert(_, _) => true
    case SetMaxEntries(n) => safe && NotLowered(m.maxEntries, n)
    case SetMaxBytes(n) => safe && NotLowered(m.maxBytes, n)
    case Load(_) => false
    case _ => safe
  }

  lemma AppliedKeepsCaps(m: Model, op: Op, safe: bool)
    requires ValidModel(m) && (safe ==> WithinCaps(m))
    ensures SafeAfter(m, op, safe) ==> WithinCaps(Applied(m, op))
  {
    match op
    case Lookup(a, h) => if safe && LookedUp(m, a, h).Hit? { TouchKeepsCaps(m, Key(a, h)); }
    case Insert(k, e) => StoreWithinCaps(m, k, e);
    case Upsert(k, e) => StoreWithinCaps(m, k, e);
    case InvalidatePage(p, n) => if safe { DropKeepsCaps(m, PageKeys(m, p, n)); }
    case Compact => if safe { DropKeepsCaps(m, Superseded(m)); }
    case _ =>
  }

  /** No load and no lowered cap follows the last successful store (or, if there is none, a start
      within the caps). */
  ghost predicate SafeHistory(m: Model, ops: seq<Op>, safe: bool)
    requires ValidModel(m) && OpsOk(ops)
    decreases |ops|
  {
    if ops == [] then safe
    else
      AppliedKeeps(m, ops[0]);
      SafeHistory(Applied(m, ops[0]), ops[1..], SafeAfter(m, ops[0], safe))
  }

  /** Both caps hold after every such history. */
  lemma {:induction false} HistoryWithinCaps(m: Model, ops: seq<Op>, safe: bool)
    requires ValidModel(m) && OpsOk(ops) && (safe ==> WithinCaps(m))
    requires SafeHistory(m, ops, safe)
    ensures WithinCaps(Replayed(m, ops))
    decreases |ops|
  {
    if ops != [] {
      AppliedKeeps(m, ops[0]);
      AppliedKeepsCaps(m, ops[0], safe);
      HistoryWithinCaps(Applied(m, ops[0]), ops[1..], SafeAfter(m, ops[0], safe));
    }
  }

  /** A load ends within the caps exactly if what it brings does. */
  lemma LoadExact(m: Model, image: Model)
    requires ValidModel(m) && ValidModel(image)
    ensures WithinCaps(Applied(m, Load(image))) <==>
      (m.maxEntries != 0 ==> |image.order| <= m.maxEntries)
      && (m.maxBytes != 0 ==> Total(image.order, image.entries) <= m.maxBytes)
  {
  }

  /** Two entries loaded under a cap of one. */
  lemma LoadOverflows(e: Entry)
    ensures var k, j := Key(0, 0), Key(1, 0);
            var image := Model([k, j], map[k := e, j := e], map[0 := 0, 1 := 0], 0, 0);
            ValidModel(image) && !WithinCaps(Applied(EMPTY.(maxEntries := 1), Load(image)))
  {
    var k, j := Key(0, 0), Key(1, 0);
    var image := Model([k, j], map[k := e, j := e], map[0 := 0, 1 := 0], 0, 0);
    assert Indexed(image, 0) && Indexed(image, 1);
  }
}
