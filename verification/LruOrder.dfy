/** Recency and the hot counter of the cache (include/xfutil/lru_cache.h). */
module LruOrder {
  import opened Bits
  import opened Collections
  import opened LruModel

  // ------------------------------------------------------------- demotion

  /** The entries whose keys are not among those of t, in their order. */
  function Without<K(==), V>(s: seq<Entry<K, V>>, t: seq<Entry<K, V>>): seq<Entry<K, V>> {
    if s == [] then []
    else if Has(t, s[0].key) then Without(s[1..], t)
    else [s[0]] + Without(s[1..], t)
  }

  lemma HasSnoc<K, V>(t: seq<Entry<K, V>>, e: Entry<K, V>, k: K)
    ensures Has(t + [e], k) <==> Has(t, k) || k == e.key
  {
    if Has(t, k) {
      var i := Find(t, k);
      assert (t + [e])[i] == t[i];
    } else if k == e.key {
      assert (t + [e])[|t|].key == k;
    }
  }

  lemma AbsentTail<K, V>(s: seq<Entry<K, V>>, k: K)
    requires s != [] && forall j :: 1 <= j < |s| ==> s[j].key != k
    ensures !Has(s[1..], k)
  {
  }

  lemma {:induction false} WithoutNone<K, V>(s: seq<Entry<K, V>>)
    ensures Without(s, []) == s
  {
    if s == [] {
    } else {
      WithoutNone(s[1..]);
    }
  }

  /** Leaving out one more key that is not there changes nothing. */
  lemma {:induction false} WithoutAbsent<K, V>(s: seq<Entry<K, V>>, t: seq<Entry<K, V>>, e: Entry<K, V>)
    requires !Has(s, e.key)
    ensures Without(s, t + [e]) == Without(s, t)
  {
    if s == [] {
    } else {
      assert s[0].key != e.key;
      HasSnoc(t, e, s[0].key);
      AbsentTail(s, e.key);
      WithoutAbsent(s[1..], t, e);
    }
  }

  /** Leaving out one more key that is there is taking its entry out first. */
  lemma {:induction false} WithoutOne<K, V>(s: seq<Entry<K, V>>, t: seq<Entry<K, V>>, e: Entry<K, V>)
    requires Distinct(s) && Has(s, e.key)
    ensures Without(s, t + [e]) == Without(RemoveAt(s, Find(s, e.key)), t)
  {
    var i := Find(s, e.key);
    HasSnoc(t, e, s[0].key);
    if i == 0 {
      AbsentTail(s, e.key);
      WithoutAbsent(s[1..], t, e);
      assert RemoveAt(s, 0) == s[1..];
    } else {
      assert s[0].key != e.key;
      assert s[1..][i - 1] == s[i];
      FindIs(s[1..], i - 1);
      WithoutOne(s[1..], t, e);
      var r := RemoveAt(s, i);
      assert r[0] == s[0] && r[1..] == RemoveAt(s[1..], i - 1);
    }
  }

  lemma WithoutFront<K, V>(e: Entry<K, V>, s: seq<Entry<K, V>>, t: seq<Entry<K, V>>)
    requires !Has(t, e.key)
    ensures Without([e] + s, t) == [e] + Without(s, t)
  {
    assert ([e] + s)[1..] == s;
  }

  /** The hot counter after all but the first n hot entries have been taken off it. */
  function CounterAt<K, V>(hot: seq<Entry<K, V>>, counter: nat, n: nat): nat
    requires n <= |hot|
  {
    Wrap(counter - Sum(hot) + Sum(hot[..n]))
  }

  predicate HotFits<K, V>(hot: seq<Entry<K, V>>, counter: nat, n: nat, size: nat, max: nat)
    requires n <= |hot|
  {
    Plus(CounterAt(hot, counter, n), size) <= max
  }

  lemma CounterWhole<K, V>(hot: seq<Entry<K, V>>, counter: nat)
    requires counter < TWO64
    ensures CounterAt(hot, counter, |hot|) == counter
  {
    assert hot[..|hot|] == hot;
    WrapSmall(counter);
  }

  /** One demotion: the counter for every shorter list is the same as before. */
  lemma CounterStep<K, V>(hot: seq<Entry<K, V>>, counter: nat, n: nat)
    requires n < |hot|
    ensures var last := |hot| - 1;
            CounterAt(hot[..last], Minus(counter, hot[last].size), n) == CounterAt(hot, counter, n)
  {
    var last := |hot| - 1;
    var x, y, z: int := Sum(hot[..last]), hot[last].size, Sum(hot[..n]);
    assert Sum(hot) == x + y;
    assert hot[..last][..n] == hot[..n];
    WrapShift(counter, x, y, z);
  }

  lemma WrapShift(counter: int, x: int, y: int, z: int)
    ensures Wrap(Wrap(counter - y) - x + z) == Wrap(counter - (x + y) + z)
  {
    WrapWrap(counter - y, z - x);
  }

  lemma DemoteShape<K, V>(c: Cache<K, V>)
    requires c.hot != []
    ensures var last := |c.hot| - 1;
            var e := c.hot[last];
            var i := Find(c.cold, e.key);
            && Demote(c).hot == c.hot[..last] && Demote(c).hotSize == Minus(c.hotSize, e.size)
            && Demote(c).cold == [e] + (if i < |c.cold| then RemoveAt(c.cold, i) else c.cold)
            && Demote(c).maxHot == c.maxHot
  {
  }

  /** Where the entry e, demoted after those of t, ends up. */
  lemma DemoteOrder<K, V>(t: seq<Entry<K, V>>, e: Entry<K, V>, cold: seq<Entry<K, V>>)
    requires Distinct(cold) && !Has(t, e.key)
    ensures var i := Find(cold, e.key);
            var cold1 := [e] + (if i < |cold| then RemoveAt(cold, i) else cold);
            t + Without(cold1, t) == t + [e] + Without(cold, t + [e])
  {
    var i := Find(cold, e.key);
    var rest := if i < |cold| then RemoveAt(cold, i) else cold;
    assert Without(cold, t + [e]) == Without(rest, t) by {
      if i < |cold| { WithoutOne(cold, t, e); } else { WithoutAbsent(cold, t, e); }
    }
    WithoutFront(e, rest, t);
    Regroup(t, [e], Without(rest, t));
  }

  lemma LastAbsent<K, V>(hot: seq<Entry<K, V>>, n: nat)
    requires Distinct(hot) && n < |hot|
    ensures !Has(hot[n..|hot| - 1], hot[|hot| - 1].key)
  {
  }

  /** Making room keeps the most recent hot entries, as many as the counter lets fit, in their order;
      the others come to the front of the cold list in their order, in the place of older copies. */
  ghost predicate RoomMade<K, V>(c: Cache<K, V>, size: nat, c': Cache<K, V>, n: nat) {
    && n <= |c.hot| && c'.hot == c.hot[..n] && c'.hotSize == CounterAt(c.hot, c.hotSize, n)
    && c'.cold == c.hot[n..] + Without(c.cold, c.hot[n..])
    && LargestFit(c.hot, c.hotSize, n, size, c.maxHot)
  }

  ghost predicate LargestFit<K, V>(hot: seq<Entry<K, V>>, counter: nat, n: nat, size: nat, max: nat)
    requires n <= |hot|
  {
    && (n == 0 || HotFits(hot, counter, n, size, max))
    && (forall l :: n < l <= |hot| ==> !HotFits(hot, counter, l, size, max))
  }

  /** The first clause of RoomMade, and the other, each through one demotion. */
  lemma ColdStep<K, V>(hot: seq<Entry<K, V>>, cold: seq<Entry<K, V>>, cold1: seq<Entry<K, V>>, n: nat)
    requires Distinct(hot) && Distinct(cold) && n < |hot|
    requires var e := hot[|hot| - 1];
             var i := Find(cold, e.key);
             cold1 == [e] + (if i < |cold| then RemoveAt(cold, i) else cold)
    ensures var hot1 := hot[..|hot| - 1];
            hot1[n..] + Without(cold1, hot1[n..]) == hot[n..] + Without(cold, hot[n..])
  {
    var last := |hot| - 1;
    var t := hot[n..last];
    LastAbsent(hot, n);
    DemoteOrder(t, hot[last], cold);
    assert hot[..last][n..] == t && hot[n..] == t + [hot[last]];
  }

  lemma FitsStep<K, V>(hot: seq<Entry<K, V>>, counter: nat, l: nat, size: nat, max: nat)
    requires l <= |hot| && hot != [] && counter < TWO64 && Plus(counter, size) > max
    ensures var last := |hot| - 1;
            HotFits(hot, counter, l, size, max) <==>
            l <= last && HotFits(hot[..last], Minus(counter, hot[last].size), l, size, max)
  {
    if l < |hot| { CounterStep(hot, counter, l); } else { CounterWhole(hot, counter); }
  }

  lemma LargestFitStep<K, V>(hot: seq<Entry<K, V>>, counter: nat, n: nat, size: nat, max: nat)
    requires n < |hot| && counter < TWO64 && Plus(counter, size) > max
    requires LargestFit(hot[..|hot| - 1], Minus(counter, hot[|hot| - 1].size), n, size, max)
    ensures LargestFit(hot, counter, n, size, max)
  {
    forall l: nat | n <= l <= |hot|
      ensures HotFits(hot, counter, l, size, max) <==>
              l < |hot| && HotFits(hot[..|hot| - 1], Minus(counter, hot[|hot| - 1].size), l, size, max)
    {
      FitsStep(hot, counter, l, size, max);
    }
  }

  lemma RoomStep<K, V>(c: Cache<K, V>, size: nat, c': Cache<K, V>, n: nat)
    requires Distinct(c.hot) && Distinct(c.cold) && c.hotSize < TWO64
    requires c.hot != [] && Plus(c.hotSize, size) > c.maxHot && RoomMade(Demote(c), size, c', n)
    ensures RoomMade(c, size, c', n)
  {
    var d, last := Demote(c), |c.hot| - 1;
    DemoteShape(c);
    assert d.hot[..n] == c.hot[..n];
    assert d.hot[n..] + Without(d.cold, d.hot[n..]) == c.hot[n..] + Without(c.cold, c.hot[n..]) by {
      ColdStep(c.hot, c.cold, d.cold, n);
    }
    assert CounterAt(d.hot, d.hotSize, n) == CounterAt(c.hot, c.hotSize, n) by { CounterStep(c.hot, c.hotSize, n); }
    assert LargestFit(c.hot, c.hotSize, n, size, c.maxHot) by {
      LargestFitStep(c.hot, c.hotSize, n, size, c.maxHot);
    }
  }

  lemma {:induction false} ReserveHotExactly<K, V>(c: Cache<K, V>, size: nat) returns (n: nat)
    requires Distinct(c.hot) && Distinct(c.cold) && c.hotSize < TWO64
    ensures RoomMade(c, size, ReserveHot(c, size), n)
    decreases |c.hot|
  {
    if c.hot == [] || Plus(c.hotSize, size) <= c.maxHot {
      n := |c.hot|;
      CounterWhole(c.hot, c.hotSize);
      WithoutNone(c.cold);
      assert c.hot[..n] == c.hot && c.hot[n..] == [];
    } else {
      var c1 := Demote(c);
      assert Distinct(c1.hot) && Distinct(c1.cold) by { DemoteDistinct(c); }
      assert c1.hotSize < TWO64 by { DemoteShape(c); }
      n := ReserveHotExactly(c1, size);
      RoomStep(c, size, ReserveHot(c1, size), n);
    }
  }

  // -------------------------------------------------------------- recency

  /** A hit on a hot entry puts it first; all others keep their order, the cold tier is untouched. */
  lemma HitRecency<K, V>(c: Cache<K, V>, key: K)
    requires Has(c.hot, key)
    ensures var c' := DoGet(c, key);
            && c'.hot != [] && c'.hot[0].key == key && Some(c'.hot[0].value) == Lookup(c.hot, key)
            && c'.hot[1..] == RemoveAt(c.hot, Find(c.hot, key))
            && c'.cold == c.cold && c'.hotSize == c.hotSize && c'.coldSize == c.coldSize
  {
  }

  /** A hit on a cold entry takes it out of the cold tier, makes room and puts it first among the hot. */
  lemma PromotionRecency<K, V>(c: Cache<K, V>, key: K) returns (n: nat)
    requires Inv(c) && c.hotSize < TWO64 && !Has(c.hot, key) && Has(c.cold, key)
    ensures var c', j := DoGet(c, key), Find(c.cold, key);
            && c'.hot != [] && c'.hot[0] == c.cold[j]
            && RoomMade(c.(cold := RemoveAt(c.cold, j)), c.cold[j].size, c'.(hot := c'.hot[1..]), n)
  {
    var j := Find(c.cold, key);
    var c1 := TakeCold(c, j);
    assert Distinct(c1.cold) by { LookupRemove(c.cold, j, key); }
    n := ReserveHotExactly(c1, c.cold[j].size);
    var c2 := ReserveHot(c1, c.cold[j].size);
    assert ([c.cold[j]] + c2.hot)[1..] == c2.hot;
  }

  // ------------------------------------------------------ the hot counter

  /** What the hot counter misses of the true sum. */
  function Drift<K, V>(hot: seq<Entry<K, V>>, counter: nat): nat {
    Wrap(Sum(hot) - counter)
  }

  /** The bytes that an operation promotes to the hot tier. */
  function Promoted<K(==), V>(c: Cache<K, V>, op: Op<K, V>): nat {
    if op.Get? && !Has(c.hot, op.key) && Has(c.cold, op.key) then c.cold[Find(c.cold, op.key)].size else 0
  }

  function PromotedIn<K(==), V>(c: Cache<K, V>, ops: seq<Op<K, V>>): nat {
    if ops == [] then 0
    else PromotedIn(c, ops[..|ops| - 1]) + Promoted(Run(c, ops[..|ops| - 1]), ops[|ops| - 1])
  }

  lemma WrapMinus(x: int, y: int, z: int)
    ensures Wrap(x - z - Wrap(y - z)) == Wrap(x - y)
  {
  }

  lemma WrapPlus(x: int, y: int, z: int)
    ensures Wrap(x + z - y) == Wrap(Wrap(x - y) + z)
  {
    WrapWrap(x - y, z);
  }

  /** An entry that leaves the hot list and the counter leaves no trace. */
  lemma RemoveDrift<K, V>(hot: seq<Entry<K, V>>, counter: nat, i: nat)
    requires i < |hot|
    ensures Drift(RemoveAt(hot, i), Minus(counter, hot[i].size)) == Drift(hot, counter)
  {
    SumRemove(hot, i);
    WrapMinus(Sum(hot), counter, hot[i].size);
  }

  lemma DemoteDrift<K, V>(c: Cache<K, V>)
    requires c.hot != []
    ensures Drift(Demote(c).hot, Demote(c).hotSize) == Drift(c.hot, c.hotSize)
  {
    var last := |c.hot| - 1;
    RemoveDrift(c.hot, c.hotSize, last);
    assert RemoveAt(c.hot, last) == c.hot[..last];
    DemoteShape(c);
  }

  lemma {:induction false} ReserveHotDrift<K, V>(c: Cache<K, V>, size: nat)
    ensures var c' := ReserveHot(c, size);
            Drift(c'.hot, c'.hotSize) == Drift(c.hot, c.hotSize)
    decreases |c.hot|
  {
    if c.hot == [] || Plus(c.hotSize, size) <= c.maxHot {
    } else {
      DemoteDrift(c);
      ReserveHotDrift(Demote(c), size);
    }
  }

  lemma RefreshSum<K, V>(hot: seq<Entry<K, V>>, i: nat)
    requires i < |hot|
    ensures Sum([hot[i]] + RemoveAt(hot, i)) == Sum(hot)
  {
    SumRemove(hot, i);
    SumPush(hot[i], RemoveAt(hot, i));
  }

  lemma PushDrift<K, V>(e: Entry<K, V>, hot: seq<Entry<K, V>>, counter: nat)
    ensures Drift([e] + hot, counter) == Plus(Drift(hot, counter), e.size)
  {
    SumPush(e, hot);
    WrapPlus(Sum(hot), counter, e.size);
  }

  lemma PlusZero<K, V>(hot: seq<Entry<K, V>>, counter: nat)
    ensures Plus(Drift(hot, counter), 0) == Drift(hot, counter)
  {
    WrapSmall(Drift(hot, counter));
  }

  lemma GetDrift<K, V>(c: Cache<K, V>, k: K)
    ensures var c' := DoGet(c, k);
            Drift(c'.hot, c'.hotSize) == Plus(Drift(c.hot, c.hotSize), Promoted(c, Get(k)))
  {
    var i, j := Find(c.hot, k), Find(c.cold, k);
    PlusZero(c.hot, c.hotSize);
    if i < |c.hot| {
      RefreshSum(c.hot, i);
    } else if j < |c.cold| {
      var e := c.cold[j];
      var c' := ReserveHot(TakeCold(c, j), e.size);
      ReserveHotDrift(TakeCold(c, j), e.size);
      PushDrift(e, c'.hot, c'.hotSize);
    }
  }

  lemma {:induction false} ReserveColdDrift<K, V>(c: Cache<K, V>, size: nat)
    ensures ReserveCold(c, size).hot == c.hot && ReserveCold(c, size).hotSize == c.hotSize
    decreases |c.cold|
  {
    if c.cold == [] || Plus(c.coldSize, size) <= c.maxCold {
    } else {
      var n := |c.cold| - 1;
      ReserveColdDrift(c.(cold := c.cold[..n], coldSize := Minus(c.coldSize, c.cold[n].size)), size);
    }
  }

  lemma StepDrift<K, V>(c: Cache<K, V>, op: Op<K, V>)
    ensures var c' := Step(c, op);
            Drift(c'.hot, c'.hotSize) == Plus(Drift(c.hot, c.hotSize), Promoted(c, op))
  {
    PlusZero(c.hot, c.hotSize);
    match op
    case Get(k) => GetDrift(c, k);
    case Add(_, _, size) => ReserveColdDrift(c, size);
    case Delete(k) =>
      var i := Find(c.hot, k);
      if i < |c.hot| { RemoveDrift(c.hot, c.hotSize, i); }
  }

  predicate DriftIs<K, V>(c: Cache<K, V>, bytes: nat) {
    Drift(c.hot, c.hotSize) == Wrap(bytes)
  }

  lemma DriftOn<K, V>(c: Cache<K, V>, op: Op<K, V>, bytes: nat)
    requires DriftIs(c, bytes)
    ensures DriftIs(Step(c, op), bytes + Promoted(c, op))
  {
    assert Plus(Wrap(bytes), Promoted(c, op)) == Wrap(bytes + Promoted(c, op)) by { WrapWrap(bytes, Promoted(c, op)); }
    StepDrift(c, op);
  }

  /** Over any run the hot counter is the sum of the hot sizes less everything ever promoted, modulo
      2^64: promotions are never added to it. */
  lemma {:induction false} HotCounterDrifts<K, V>(ops: seq<Op<K, V>>, c0: Cache<K, V>)
    requires c0 == Empty(c0.maxHot, c0.maxCold)
    ensures DriftIs(Run(c0, ops), PromotedIn(c0, ops))
  {
    if ops == [] {
    } else {
      var front, op := ops[..|ops| - 1], ops[|ops| - 1];
      assert DriftIs(Run(c0, front), PromotedIn(c0, front)) by { HotCounterDrifts(front, c0); }
      DriftOn(Run(c0, front), op, PromotedIn(c0, front));
    }
  }
}
