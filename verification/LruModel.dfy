/** The two-tier cache (include/xfutil/lru_cache.h): what its operations do to the two lists. */
module LruModel {
  import opened Bits
  import opened Collections

  datatype Entry<K, V> = Entry(key: K, value: V, size: nat)

  /** Both lists run from most to least recently used. The counters have 64 bits. */
  datatype Cache<K, V> = Cache(
    hot: seq<Entry<K, V>>, cold: seq<Entry<K, V>>,
    hotSize: nat, coldSize: nat, maxHot: nat, maxCold: nat)

  datatype Op<K, V> = Add(key: K, value: V, size: nat) | Get(key: K) | Delete(key: K)

  function Wrap(x: int): (r: nat)
    ensures r < TWO64
  {
    x % TWO64
  }

  /** Additions to and subtractions from a counter. */
  function Plus(total: nat, size: nat): (r: nat) {
    Wrap(total + size)
  }

  function Minus(total: nat, size: nat): (r: nat) {
    Wrap(total - size)
  }

  lemma WrapWrap(x: int, y: int)
    ensures Wrap(Wrap(x) + y) == Wrap(x + y)
  {
  }

  lemma WrapSmall(x: nat)
    requires x < TWO64
    ensures Wrap(x) == x
  {
  }

  // ------------------------------------------------------- lists of entries

  /** Where a key stands, or the length of the list if it does not. */
  function Find<K(==), V>(s: seq<Entry<K, V>>, k: K): (i: nat)
    ensures i <= |s|
    ensures i < |s| ==> s[i].key == k
    ensures forall j :: 0 <= j < i ==> s[j].key != k
  {
    if s == [] || s[0].key == k then 0 else 1 + Find(s[1..], k)
  }

  predicate Has<K(==), V>(s: seq<Entry<K, V>>, k: K) {
    Find(s, k) < |s|
  }

  function Lookup<K(==), V>(s: seq<Entry<K, V>>, k: K): Option<V> {
    if Has(s, k) then Some(s[Find(s, k)].value) else None
  }

  predicate Distinct<K(==), V>(s: seq<Entry<K, V>>) {
    forall i, j :: 0 <= i < j < |s| ==> s[i].key != s[j].key
  }

  function Sum<K, V>(s: seq<Entry<K, V>>): nat {
    if s == [] then 0 else Sum(s[..|s| - 1]) + s[|s| - 1].size
  }

  lemma FindIs<K, V>(s: seq<Entry<K, V>>, i: nat)
    requires i < |s| && Distinct(s)
    ensures Find(s, s[i].key) == i
  {
  }

  lemma LookupPush<K, V>(e: Entry<K, V>, s: seq<Entry<K, V>>, k: K)
    ensures Lookup([e] + s, k) == if k == e.key then Some(e.value) else Lookup(s, k)
  {
    assert ([e] + s)[1..] == s;
  }

  lemma LookupRemove<K, V>(s: seq<Entry<K, V>>, i: nat, k: K)
    requires i < |s| && Distinct(s)
    ensures Distinct(RemoveAt(s, i))
    ensures Lookup(RemoveAt(s, i), k) == if k == s[i].key then None else Lookup(s, k)
  {
    var r, p := RemoveAt(s, i), Find(s, k);
    if k == s[i].key {
      FindIs(s, i);
      assert forall j :: 0 <= j < |r| ==> r[j].key != k;
    } else if p < |s| {
      var q := if p < i then p else p - 1;
      assert r[q] == s[p];
      FindIs(r, q);
    } else {
      assert forall j :: 0 <= j < |r| ==> r[j].key != k;
    }
  }

  lemma {:induction false} SumPush<K, V>(e: Entry<K, V>, s: seq<Entry<K, V>>)
    ensures Sum([e] + s) == e.size + Sum(s)
  {
    if s == [] {
      assert [e] + s == [e];
      assert [e][..0] == [];
    } else {
      SumPush(e, s[..|s| - 1]);
      assert ([e] + s)[..|s|] == [e] + s[..|s| - 1];
    }
  }

  lemma {:induction false} SumRemove<K, V>(s: seq<Entry<K, V>>, i: nat)
    requires i < |s|
    ensures Sum(RemoveAt(s, i)) == Sum(s) - s[i].size
  {
    var n := |s| - 1;
    if i == n {
      assert RemoveAt(s, i) == s[..n];
    } else {
      SumRemove(s[..n], i);
      assert RemoveAt(s, i)[..n - 1] == RemoveAt(s[..n], i);
    }
  }

  // ---------------------------------------------------------- the operations

  /** Drops cold entries from the back until the newcomer fits. */
  function ReserveCold<K, V>(c: Cache<K, V>, size: nat): Cache<K, V>
    decreases |c.cold|
  {
    if c.cold != [] && Plus(c.coldSize, size) > c.maxCold then
      var n := |c.cold| - 1;
      ReserveCold(c.(cold := c.cold[..n], coldSize := Minus(c.coldSize, c.cold[n].size)), size)
    else c
  }

  /** Moves the least recently used hot entry to the front of the cold list,
      where it replaces an entry of the same key. */
  function Demote<K(==), V>(c: Cache<K, V>): Cache<K, V>
    requires c.hot != []
  {
    var n := |c.hot| - 1;
    var e := c.hot[n];
    var c' := c.(hot := c.hot[..n], hotSize := Minus(c.hotSize, e.size));
    var i := Find(c.cold, e.key);
    if i < |c.cold| then
      c'.(cold := [e] + RemoveAt(c.cold, i), coldSize := Minus(Plus(c.coldSize, e.size), c.cold[i].size))
    else
      c'.(cold := [e] + c.cold, coldSize := Plus(c.coldSize, e.size))
  }

  function ReserveHot<K(==), V>(c: Cache<K, V>, size: nat): Cache<K, V>
    decreases |c.hot|
  {
    if c.hot != [] && Plus(c.hotSize, size) > c.maxHot then ReserveHot(Demote(c), size) else c
  }

  function DoAdd<K(==), V>(c: Cache<K, V>, e: Entry<K, V>): Cache<K, V> {
    var c' := ReserveCold(c, e.size);
    if Has(c'.cold, e.key) then c'
    else c'.(cold := [e] + c'.cold, coldSize := Plus(c'.coldSize, e.size))
  }

  function TakeCold<K, V>(c: Cache<K, V>, j: nat): Cache<K, V>
    requires j < |c.cold|
  {
    c.(cold := RemoveAt(c.cold, j), coldSize := Minus(c.coldSize, c.cold[j].size))
  }

  function DoGet<K(==), V>(c: Cache<K, V>, k: K): Cache<K, V> {
    var i, j := Find(c.hot, k), Find(c.cold, k);
    if i < |c.hot| then
      c.(hot := [c.hot[i]] + RemoveAt(c.hot, i))
    else if j < |c.cold| then
      var e := c.cold[j];
      var c' := ReserveHot(TakeCold(c, j), e.size);
      c'.(hot := [e] + c'.hot)
    else c
  }

  function DoDelete<K(==), V>(c: Cache<K, V>, k: K): Cache<K, V> {
    var i, j := Find(c.hot, k), Find(c.cold, k);
    if i < |c.hot| then
      c.(hot := RemoveAt(c.hot, i), hotSize := Minus(c.hotSize, c.hot[i].size))
    else if j < |c.cold| then
      TakeCold(c, j)
    else c
  }

  function Step<K(==), V>(c: Cache<K, V>, op: Op<K, V>): Cache<K, V> {
    match op
    case Add(k, v, size) => DoAdd(c, Entry(k, v, size))
    case Get(k) => DoGet(c, k)
    case Delete(k) => DoDelete(c, k)
  }

  /** The value Get returns: hot entries override cold ones. */
  function Logical<K(==), V>(c: Cache<K, V>, k: K): Option<V> {
    if Has(c.hot, k) then Lookup(c.hot, k) else Lookup(c.cold, k)
  }

  // -------------------------------------------------------------- invariant

  /** No key twice in a tier; the cold counter is the sum of the cold sizes, modulo 2^64. */
  predicate Inv<K(==), V>(c: Cache<K, V>) {
    Distinct(c.hot) && Distinct(c.cold) && c.coldSize == Wrap(Sum(c.cold))
  }

  lemma DemoteDistinct<K, V>(c: Cache<K, V>)
    requires Distinct(c.hot) && Distinct(c.cold) && c.hot != []
    ensures Distinct(Demote(c).hot) && Distinct(Demote(c).cold)
  {
    var e := c.hot[|c.hot| - 1];
    var i := Find(c.cold, e.key);
    if i < |c.cold| {
      LookupRemove(c.cold, i, e.key);
      DistinctPush(e, RemoveAt(c.cold, i));
    } else {
      DistinctPush(e, c.cold);
    }
  }

  lemma DemoteSum<K, V>(c: Cache<K, V>)
    requires c.hot != [] && c.coldSize == Wrap(Sum(c.cold))
    ensures Demote(c).coldSize == Wrap(Sum(Demote(c).cold))
  {
    var e := c.hot[|c.hot| - 1];
    var i, sum := Find(c.cold, e.key), Sum(c.cold);
    assert Plus(c.coldSize, e.size) == Wrap(sum + e.size) by { WrapWrap(sum, e.size); }
    if i < |c.cold| {
      var gone: int := c.cold[i].size;
      assert Sum([e] + RemoveAt(c.cold, i)) == sum + e.size - gone by {
        SumRemove(c.cold, i);
        SumPush(e, RemoveAt(c.cold, i));
      }
      assert Wrap(Wrap(sum + e.size) - gone) == Wrap(sum + e.size - gone) by {
        WrapWrap(sum + e.size, 0 - gone);
      }
    } else {
      SumPush(e, c.cold);
    }
  }

  /** Demotion changes no lookup, also when the key has an outdated copy in the cold tier. */
  lemma DemoteLogical<K, V>(c: Cache<K, V>, k: K)
    requires Inv(c) && c.hot != []
    ensures Logical(Demote(c), k) == Logical(c, k)
  {
    var n := |c.hot| - 1;
    var e := c.hot[n];
    var i := Find(c.cold, e.key);
    assert RemoveAt(c.hot, n) == c.hot[..n];
    LookupRemove(c.hot, n, k);
    FindIs(c.hot, n);
    if i < |c.cold| {
      LookupRemove(c.cold, i, k);
      LookupPush(e, RemoveAt(c.cold, i), k);
    } else {
      LookupPush(e, c.cold, k);
    }
  }

  lemma {:induction false} ReserveHotKeeps<K, V>(c: Cache<K, V>, size: nat, k: K)
    requires Inv(c)
    ensures Inv(ReserveHot(c, size)) && Logical(ReserveHot(c, size), k) == Logical(c, k)
    decreases |c.hot|
  {
    if c.hot == [] || Plus(c.hotSize, size) <= c.maxHot {
    } else {
      DemoteDistinct(c);
      DemoteSum(c);
      DemoteLogical(c, k);
      ReserveHotKeeps(Demote(c), size, k);
    }
  }

  /** Any number of demotions, starting with no copy of k in either tier, leaves it that way. */
  lemma ReserveHotAbsent<K, V>(c: Cache<K, V>, size: nat, k: K)
    requires Inv(c) && Logical(c, k) == None
    ensures !Has(ReserveHot(c, size).hot, k) && !Has(ReserveHot(c, size).cold, k)
  {
    ReserveHotKeeps(c, size, k);
  }

  lemma HitKeepsContents<K, V>(c: Cache<K, V>, key: K, k: K)
    requires Inv(c) && Has(c.hot, key)
    ensures Inv(DoGet(c, key)) && Logical(DoGet(c, key), k) == Logical(c, k)
  {
    var i := Find(c.hot, key);
    var e, others := c.hot[i], RemoveAt(c.hot, i);
    LookupRemove(c.hot, i, k);
    LookupRemove(c.hot, i, key);
    LookupPush(e, others, k);
    FindIs(c.hot, i);
    DistinctPush(e, others);
  }

  lemma TakeColdKeeps<K, V>(c: Cache<K, V>, j: nat, k: K)
    requires Inv(c) && j < |c.cold|
    ensures Inv(TakeCold(c, j))
    ensures Lookup(TakeCold(c, j).cold, k) == if k == c.cold[j].key then None else Lookup(c.cold, k)
  {
    LookupRemove(c.cold, j, k);
    SumRemove(c.cold, j);
    WrapWrap(Sum(c.cold), 0 - c.cold[j].size);
  }

  lemma PromotionKeepsContents<K, V>(c: Cache<K, V>, key: K, k: K)
    requires Inv(c) && !Has(c.hot, key) && Has(c.cold, key)
    ensures Inv(DoGet(c, key)) && Logical(DoGet(c, key), k) == Logical(c, k)
  {
    var j := Find(c.cold, key);
    var e, c1 := c.cold[j], TakeCold(c, j);
    TakeColdKeeps(c, j, k);
    TakeColdKeeps(c, j, key);
    ReserveHotKeeps(c1, e.size, k);
    ReserveHotAbsent(c1, e.size, key);
    var c2 := ReserveHot(c1, e.size);
    DistinctPush(e, c2.hot);
    LookupPush(e, c2.hot, k);
  }

  /** Get promotes, demotes and resolves collisions without changing any lookup. */
  lemma GetKeepsContents<K, V>(c: Cache<K, V>, key: K, k: K)
    requires Inv(c)
    ensures Inv(DoGet(c, key)) && Logical(DoGet(c, key), k) == Logical(c, k)
  {
    if Has(c.hot, key) {
      HitKeepsContents(c, key, k);
    } else if Has(c.cold, key) {
      PromotionKeepsContents(c, key, k);
    }
  }

  lemma DistinctPush<K, V>(e: Entry<K, V>, s: seq<Entry<K, V>>)
    requires Distinct(s) && !Has(s, e.key)
    ensures Distinct([e] + s)
  {
    assert forall j :: 0 <= j < |s| ==> s[j].key != e.key;
  }

  /** The newcomer fits beside the first m entries, as the counter sees it. */
  predicate Fits<K, V>(s: seq<Entry<K, V>>, m: nat, size: nat, max: nat)
    requires m <= |s|
  {
    Plus(Wrap(Sum(s[..m])), size) <= max
  }

  lemma FitsPrefix<K, V>(s: seq<Entry<K, V>>, n: nat, m: nat, size: nat, max: nat)
    requires m <= n <= |s|
    ensures Fits(s[..n], m, size, max) == Fits(s, m, size, max)
  {
    assert s[..n][..m] == s[..m];
  }

  /** Eviction keeps the longest stretch of recent entries that leaves room, and nothing else. */
  lemma {:induction false} ReserveColdKeeps<K, V>(c: Cache<K, V>, size: nat) returns (m: nat)
    requires Inv(c)
    ensures m <= |c.cold|
    ensures ReserveCold(c, size) == c.(cold := c.cold[..m], coldSize := Wrap(Sum(c.cold[..m])))
    ensures m == 0 || Fits(c.cold, m, size, c.maxCold)
    ensures forall l :: m < l <= |c.cold| ==> !Fits(c.cold, l, size, c.maxCold)
    decreases |c.cold|
  {
    assert c.cold[..|c.cold|] == c.cold;
    if c.cold != [] && Plus(c.coldSize, size) > c.maxCold {
      var n := |c.cold| - 1;
      var c1 := c.(cold := c.cold[..n], coldSize := Minus(c.coldSize, c.cold[n].size));
      assert Inv(c1) by {
        WrapWrap(Sum(c.cold), 0 - c.cold[n].size);
        assert Sum(c.cold) == Sum(c.cold[..n]) + c.cold[n].size;
      }
      assert !Fits(c.cold, n + 1, size, c.maxCold);
      m := ReserveColdKeeps(c1, size);
      assert c1.cold[..m] == c.cold[..m];
      assert m == 0 || Fits(c.cold, m, size, c.maxCold) by { FitsPrefix(c.cold, n, m, size, c.maxCold); }
      forall l: nat | m < l <= n
        ensures !Fits(c.cold, l, size, c.maxCold)
      {
        FitsPrefix(c.cold, n, l, size, c.maxCold);
      }
    } else {
      m := |c.cold|;
    }
  }

  lemma {:induction false} SumPrefix<K, V>(s: seq<Entry<K, V>>, m: nat)
    requires m <= |s|
    ensures Sum(s[..m]) <= Sum(s)
  {
    if m == |s| {
      assert s[..m] == s;
    } else {
      SumPrefix(s[..|s| - 1], m);
      assert s[..|s| - 1][..m] == s[..m];
    }
  }

  /** Unless the sizes overflow, Add leaves the cold tier within its limit or holding nothing
      but the new entry. */
  lemma AddBound<K, V>(c: Cache<K, V>, e: Entry<K, V>)
    requires Inv(c) && Sum(c.cold) + e.size < TWO64
    ensures var c' := DoAdd(c, e);
            && c'.coldSize == Sum(c'.cold)
            && (Sum(c'.cold) <= c.maxCold || c'.cold == [e])
  {
    var m := ReserveColdKeeps(c, e.size);
    var kept, sum := c.cold[..m], Sum(c.cold[..m]);
    assert sum + e.size < TWO64 by { SumPrefix(c.cold, m); }
    assert Wrap(sum) == sum && Plus(sum, e.size) == sum + e.size by {
      WrapSmall(sum);
      WrapSmall(sum + e.size);
    }
    assert m == 0 || sum + e.size <= c.maxCold;
    assert Sum([e] + kept) == e.size + sum by { SumPush(e, kept); }
    if m == 0 {
      assert kept == [] && [e] + kept == [e];
    }
  }

  lemma AddKeeps<K, V>(c: Cache<K, V>, e: Entry<K, V>)
    requires Inv(c)
    ensures Inv(DoAdd(c, e))
  {
    var m := ReserveColdKeeps(c, e.size);
    var kept := c.cold[..m];
    if !Has(kept, e.key) {
      SumPush(e, kept);
      WrapWrap(Sum(kept), e.size);
      DistinctPush(e, kept);
    }
  }

  /** Eviction for a newcomer of the given size keeps the first m cold entries: as many as fit. */
  ghost predicate IsCut<K, V>(c: Cache<K, V>, size: nat, m: nat) {
    && m <= |c.cold| && (m == 0 || Fits(c.cold, m, size, c.maxCold))
    && forall l :: m < l <= |c.cold| ==> !Fits(c.cold, l, size, c.maxCold)
  }

  /** Add makes its key present: an entry that is still there after the eviction stays as it is, with
      its value and in its place; only otherwise the new one comes, and comes first. */
  lemma AddPresent<K, V>(c: Cache<K, V>, e: Entry<K, V>) returns (m: nat)
    requires Inv(c)
    ensures IsCut(c, e.size, m)
    ensures var c', kept := DoAdd(c, e), c.cold[..m];
            && c'.hot == c.hot && c'.cold == (if Has(kept, e.key) then kept else [e] + kept)
            && Logical(c', e.key) ==
               if Has(c.hot, e.key) || Has(kept, e.key) then Logical(c, e.key) else Some(e.value)
  {
    m := ReserveColdKeeps(c, e.size);
    PrefixLookup(c.cold, m, e.key);
    LookupPush(e, c.cold[..m], e.key);
  }

  /** Of the other keys, Add evicts exactly those that are neither hot nor before the cut. */
  lemma AddOthers<K, V>(c: Cache<K, V>, e: Entry<K, V>, k: K) returns (m: nat)
    requires Inv(c) && k != e.key
    ensures IsCut(c, e.size, m)
    ensures Logical(DoAdd(c, e), k) == if Has(c.hot, k) || Has(c.cold[..m], k) then Logical(c, k) else None
  {
    m := ReserveColdKeeps(c, e.size);
    PrefixLookup(c.cold, m, k);
    LookupPush(e, c.cold[..m], k);
  }

  lemma PrefixLookup<K, V>(s: seq<Entry<K, V>>, m: nat, k: K)
    requires m <= |s| && Distinct(s)
    ensures Lookup(s[..m], k) == Lookup(s, k) || Lookup(s[..m], k) == None
  {
    if Has(s[..m], k) {
      var i := Find(s[..m], k);
      assert s[..m][i] == s[i];
      FindIs(s, i);
    }
  }

  /** Delete removes its key from the hot tier if it is there, else from the cold one. */
  lemma DeleteContents<K, V>(c: Cache<K, V>, key: K, k: K)
    requires Inv(c)
    ensures Inv(DoDelete(c, key))
    ensures k != key ==> Logical(DoDelete(c, key), k) == Logical(c, k)
    ensures Logical(DoDelete(c, key), key) == None <==> !(Has(c.hot, key) && Has(c.cold, key))
    ensures Has(c.hot, key) ==> Logical(DoDelete(c, key), key) == Lookup(c.cold, key)
  {
    var i, j := Find(c.hot, key), Find(c.cold, key);
    if i < |c.hot| {
      LookupRemove(c.hot, i, k);
      LookupRemove(c.hot, i, key);
    } else if j < |c.cold| {
      TakeColdKeeps(c, j, k);
      TakeColdKeeps(c, j, key);
    }
  }

  // ------------------------------------------------------------- whole runs

  function Empty<K, V>(maxHot: nat, maxCold: nat): Cache<K, V> {
    Cache([], [], 0, 0, maxHot, maxCold)
  }

  function Run<K(==), V>(c: Cache<K, V>, ops: seq<Op<K, V>>): Cache<K, V> {
    if ops == [] then c else Step(Run(c, ops[..|ops| - 1]), ops[|ops| - 1])
  }

  /** Some operation of the run added this value under this key. */
  ghost predicate Added<K, V>(ops: seq<Op<K, V>>, e: Entry<K, V>) {
    exists i :: 0 <= i < |ops| && ops[i] == Add(e.key, e.value, e.size)
  }

  ghost predicate AllAdded<K(!new), V(!new)>(c: Cache<K, V>, ops: seq<Op<K, V>>) {
    forall e :: e in c.hot || e in c.cold ==> Added(ops, e)
  }

  lemma {:induction false} ReserveHotEntries<K, V>(c: Cache<K, V>, size: nat, e: Entry<K, V>)
    requires e in ReserveHot(c, size).hot || e in ReserveHot(c, size).cold
    ensures e in c.hot || e in c.cold
    decreases |c.hot|
  {
    if c.hot == [] || Plus(c.hotSize, size) <= c.maxHot {
    } else {
      ReserveHotEntries(Demote(c), size, e);
      DemoteEntries(c, e);
    }
  }

  lemma DemoteEntries<K, V>(c: Cache<K, V>, e: Entry<K, V>)
    requires c.hot != [] && (e in Demote(c).hot || e in Demote(c).cold)
    ensures e in c.hot || e in c.cold
  {
  }

  lemma {:induction false} ReserveColdEntries<K, V>(c: Cache<K, V>, size: nat, e: Entry<K, V>)
    requires e in ReserveCold(c, size).hot || e in ReserveCold(c, size).cold
    ensures e in c.hot || e in c.cold
    decreases |c.cold|
  {
    if c.cold == [] || Plus(c.coldSize, size) <= c.maxCold {
    } else {
      var n := |c.cold| - 1;
      ReserveColdEntries(c.(cold := c.cold[..n], coldSize := Minus(c.coldSize, c.cold[n].size)), size, e);
    }
  }

  /** Only Add brings entries in. */
  lemma StepEntries<K, V>(c: Cache<K, V>, op: Op<K, V>, e: Entry<K, V>)
    requires e in Step(c, op).hot || e in Step(c, op).cold
    ensures e in c.hot || e in c.cold || op == Add(e.key, e.value, e.size)
  {
    match op
    case Add(k, v, size) =>
      if e != Entry(k, v, size) { ReserveColdEntries(c, size, e); }
    case Get(k) => GetEntries(c, k, e);
    case Delete(k) =>
  }

  lemma GetEntries<K, V>(c: Cache<K, V>, k: K, e: Entry<K, V>)
    requires e in DoGet(c, k).hot || e in DoGet(c, k).cold
    ensures e in c.hot || e in c.cold
  {
    var j := Find(c.cold, k);
    if !Has(c.hot, k) && j < |c.cold| && e != c.cold[j] {
      ReserveHotEntries(TakeCold(c, j), c.cold[j].size, e);
    }
  }

  lemma StepKeeps<K, V>(c: Cache<K, V>, op: Op<K, V>)
    requires Inv(c)
    ensures Inv(Step(c, op))
  {
    match op
    case Add(k, v, size) => AddKeeps(c, Entry(k, v, size));
    case Get(k) => GetKeepsContents(c, k, k);
    case Delete(k) => DeleteContents(c, k, k);
  }

  /** In every run from the empty cache the invariant holds, and what a lookup of a key would
      return was added under that key earlier in the run. */
  lemma {:induction false} RunSafe<K(!new), V(!new)>(ops: seq<Op<K, V>>, maxHot: nat, maxCold: nat)
    ensures Inv(Run(Empty(maxHot, maxCold), ops))
    ensures AllAdded(Run(Empty(maxHot, maxCold), ops), ops)
  {
    if ops == [] {
    } else {
      var n := |ops| - 1;
      var front, c := ops[..n], Run(Empty(maxHot, maxCold), ops[..n]);
      RunSafe(front, maxHot, maxCold);
      StepKeeps(c, ops[n]);
      forall e | e in Step(c, ops[n]).hot || e in Step(c, ops[n]).cold
        ensures Added(ops, e)
      {
        StepEntries(c, ops[n], e);
        if e in c.hot || e in c.cold {
          var i :| 0 <= i < |front| && front[i] == Add(e.key, e.value, e.size);
          assert ops[i] == front[i];
        }
      }
    }
  }

  lemma LookupEntry<K, V>(s: seq<Entry<K, V>>, k: K) returns (e: Entry<K, V>)
    requires Lookup(s, k) != None
    ensures e in s && e.key == k && Lookup(s, k) == Some(e.value)
  {
    e := s[Find(s, k)];
  }

  lemma RunLookup<K(!new), V(!new)>(ops: seq<Op<K, V>>, maxHot: nat, maxCold: nat, k: K)
    requires Logical(Run(Empty(maxHot, maxCold), ops), k) != None
    ensures exists i :: 0 <= i < |ops| && ops[i].Add? && ops[i].key == k &&
                        Logical(Run(Empty(maxHot, maxCold), ops), k) == Some(ops[i].value)
  {
    var c := Run(Empty(maxHot, maxCold), ops);
    RunSafe(ops, maxHot, maxCold);
    var e := LookupEntry(if Has(c.hot, k) then c.hot else c.cold, k);
    assert Added(ops, e);
  }

  /** A deleted key can come back: promoted, added again, then deleted from the hot tier only. */
  lemma DeleteMayResurface()
    ensures var ops := [Add(1, "a", 1), Get(1), Add(1, "b", 1), Delete(1)];
            Logical(Run(Empty(6, 4), ops), 1) == Some("b")
  {
    var c0: Cache<int, string> := Empty(6, 4);
    var c1 := DoAdd(c0, Entry(1, "a", 1));
    assert c1.cold == [Entry(1, "a", 1)] && c1.hot == [];
    var c2 := DoGet(c1, 1);
    assert c2.hot == [Entry(1, "a", 1)] && c2.cold == [];
    var c3 := DoAdd(c2, Entry(1, "b", 1));
    assert c3.cold == [Entry(1, "b", 1)] && c3.hot == c2.hot;
    var c4 := DoDelete(c3, 1);
    assert c4.cold == c3.cold && c4.hot == [];
    var ops := [Add(1, "a", 1), Get(1), Add(1, "b", 1), Delete(1)];
    assert ops[..3] == [Add(1, "a", 1), Get(1), Add(1, "b", 1)];
    assert ops[..3][..2] == [Add(1, "a", 1), Get(1)];
    assert ops[..3][..2][..1] == [Add(1, "a", 1)];
    assert ops[..3][..2][..1][..0] == [];
    assert Run(c0, ops[..3][..2][..1]) == c1;
    assert Run(c0, ops[..3][..2]) == c2;
    assert Run(c0, ops[..3]) == c3;
  }
}
