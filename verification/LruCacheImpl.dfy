/** LruCache as the code has it: lists of nodes, index maps of iterators, counters
    (include/xfutil/lru_cache.h). Each method is proved to do what LruModel says. */
module LruCacheImpl {
  import opened Bits
  import opened Collections
  import opened LruModel

  /** An iterator is the identity of the list node it points at. */
  type Iterator = nat

  /** Where an iterator points in a list whose nodes have the given identities. */
  function Position(ids: seq<Iterator>, it: Iterator): (i: nat)
    ensures i <= |ids|
    ensures i < |ids| ==> ids[i] == it
    ensures forall j :: 0 <= j < i ==> ids[j] != it
  {
    if ids == [] || ids[0] == it then 0 else 1 + Position(ids[1..], it)
  }

  /** A list and its index: no node twice, every node found under its own key, and no other keys. */
  ghost predicate Tier<K, V>(list: seq<Entry<K, V>>, ids: seq<Iterator>, index: map<K, Iterator>, next: Iterator) {
    && |ids| == |list|
    && (forall i :: 0 <= i < |ids| ==> ids[i] < next)
    && (forall i, j :: 0 <= i < j < |ids| ==> ids[i] != ids[j])
    && (forall i :: 0 <= i < |ids| ==> list[i].key in index && index[list[i].key] == ids[i])
    && |index| == |list|
  }

  ghost function Keys<K, V>(list: seq<Entry<K, V>>): set<K> {
    set i | 0 <= i < |list| :: list[i].key
  }

  lemma {:induction false} KeysCount<K, V>(list: seq<Entry<K, V>>)
    requires Distinct(list)
    ensures |Keys(list)| == |list|
  {
    if list == [] {
    } else {
      var n := |list| - 1;
      KeysCount(list[..n]);
      assert Keys(list) == Keys(list[..n]) + {list[n].key};
    }
  }

  lemma TierDistinct<K, V>(list: seq<Entry<K, V>>, ids: seq<Iterator>, index: map<K, Iterator>, next: Iterator)
    requires Tier(list, ids, index, next)
    ensures Distinct(list) && index.Keys == Keys(list)
  {
    forall i, j | 0 <= i < j < |list|
      ensures list[i].key != list[j].key
    {
      assert ids[i] != ids[j];
    }
    KeysCount(list);
    SubsetSize(Keys(list), index.Keys);
  }

  lemma TierFind<K, V>(list: seq<Entry<K, V>>, ids: seq<Iterator>, index: map<K, Iterator>, next: Iterator, k: K)
    requires Tier(list, ids, index, next)
    ensures k in index <==> Has(list, k)
    ensures k in index ==> Position(ids, index[k]) == Find(list, k)
  {
    TierDistinct(list, ids, index, next);
    assert k in index <==> k in Keys(list);
  }

  lemma TierErase<K, V>(list: seq<Entry<K, V>>, ids: seq<Iterator>, index: map<K, Iterator>, next: Iterator, i: nat)
    requires Tier(list, ids, index, next) && i < |list|
    ensures Tier(RemoveAt(list, i), RemoveAt(ids, i), index - {list[i].key}, next)
  {
    var r, rids, index' := RemoveAt(list, i), RemoveAt(ids, i), index - {list[i].key};
    assert |index'| == |list| - 1 by {
      assert index'.Keys == index.Keys - {list[i].key};
    }
    assert forall j :: 0 <= j < |r| ==> r[j].key in index' && index'[r[j].key] == rids[j] by {
      forall j | 0 <= j < |r|
        ensures r[j].key in index' && index'[r[j].key] == rids[j]
      {
        var p := if j < i then j else j + 1;
        assert r[j] == list[p] && rids[j] == ids[p] && ids[p] != ids[i];
      }
    }
  }

  lemma TierPush<K, V>(list: seq<Entry<K, V>>, ids: seq<Iterator>, index: map<K, Iterator>, next: Iterator,
                       e: Entry<K, V>)
    requires Tier(list, ids, index, next) && e.key !in index
    ensures Tier([e] + list, [next] + ids, index[e.key := next], next + 1)
  {
    var r, rids, index' := [e] + list, [next] + ids, index[e.key := next];
    assert |index'| == |list| + 1 by {
      assert index'.Keys == index.Keys + {e.key};
    }
    assert forall j :: 0 <= j < |r| ==> r[j].key in index' && index'[r[j].key] == rids[j];
  }

  class LruCache<K(==), V> {
    const m_max_hot_size: nat
    const m_max_cold_size: nat
    var m_hit_count: nat
    var m_miss_count: nat
    var m_hot_size: nat
    var m_hot_list: seq<Entry<K, V>>
    var m_hot_ids: seq<Iterator>        // the identities of the nodes of m_hot_list
    var m_hot_map: map<K, Iterator>
    var m_cold_size: nat
    var m_cold_list: seq<Entry<K, V>>
    var m_cold_ids: seq<Iterator>
    var m_cold_map: map<K, Iterator>
    var m_next: Iterator                // an identity no node has had yet

    ghost predicate Linked()
      reads `m_hot_list, `m_hot_ids, `m_hot_map, `m_cold_list, `m_cold_ids, `m_cold_map, `m_next
    {
      && Tier(m_hot_list, m_hot_ids, m_hot_map, m_next)
      && Tier(m_cold_list, m_cold_ids, m_cold_map, m_next)
    }

    ghost predicate Valid()
      reads this
    {
      Linked() && Inv(State())
    }

    ghost function State(): Cache<K, V>
      reads this
    {
      Cache(m_hot_list, m_cold_list, m_hot_size, m_cold_size, m_max_hot_size, m_max_cold_size)
    }

    /** The hot share is a floating-point product; any split of the size will do. */
    constructor (maxHot: nat, maxCold: nat)
      ensures Valid() && State() == Empty(maxHot, maxCold)
      ensures m_hit_count == 0 && m_miss_count == 0
    {
      m_max_hot_size, m_max_cold_size := maxHot, maxCold;
      m_hit_count, m_miss_count := 0, 0;
      m_hot_size, m_hot_list, m_hot_ids, m_hot_map := 0, [], [], map[];
      m_cold_size, m_cold_list, m_cold_ids, m_cold_map := 0, [], [], map[];
      m_next := 0;
    }

    method PushCold(e: Entry<K, V>)
      requires Linked() && e.key !in m_cold_map
      modifies `m_cold_list, `m_cold_ids, `m_cold_map, `m_next
      ensures Linked() && m_cold_list == [e] + old(m_cold_list)
    {
      TierPush(m_cold_list, m_cold_ids, m_cold_map, m_next, e);
      m_cold_list, m_cold_ids := [e] + m_cold_list, [m_next] + m_cold_ids;
      m_cold_map := m_cold_map[e.key := m_next];
      m_next := m_next + 1;
    }

    method PushHot(e: Entry<K, V>)
      requires Linked() && e.key !in m_hot_map
      modifies `m_hot_list, `m_hot_ids, `m_hot_map, `m_next
      ensures Linked() && m_hot_list == [e] + old(m_hot_list)
    {
      TierPush(m_hot_list, m_hot_ids, m_hot_map, m_next, e);
      m_hot_list, m_hot_ids := [e] + m_hot_list, [m_next] + m_hot_ids;
      m_hot_map := m_hot_map[e.key := m_next];
      m_next := m_next + 1;
    }

    /** Unlinks the cold node an iterator points at, and its key. */
    method EraseCold(it: Iterator) returns (e: Entry<K, V>)
      requires Linked() && Position(m_cold_ids, it) < |m_cold_list|
      modifies `m_cold_list, `m_cold_ids, `m_cold_map
      ensures Linked()
      ensures var i := old(Position(m_cold_ids, it));
              e == old(m_cold_list)[i] && m_cold_list == RemoveAt(old(m_cold_list), i)
      ensures m_cold_map == old(m_cold_map) - {e.key}
    {
      var i := Position(m_cold_ids, it);
      TierErase(m_cold_list, m_cold_ids, m_cold_map, m_next, i);
      e := m_cold_list[i];
      m_cold_list, m_cold_ids := RemoveAt(m_cold_list, i), RemoveAt(m_cold_ids, i);
      m_cold_map := m_cold_map - {e.key};
    }

    method EraseHot(it: Iterator) returns (e: Entry<K, V>)
      requires Linked() && Position(m_hot_ids, it) < |m_hot_list|
      modifies `m_hot_list, `m_hot_ids, `m_hot_map
      ensures Linked()
      ensures var i := old(Position(m_hot_ids, it));
              e == old(m_hot_list)[i] && m_hot_list == RemoveAt(old(m_hot_list), i)
      ensures m_hot_map == old(m_hot_map) - {e.key}
    {
      var i := Position(m_hot_ids, it);
      TierErase(m_hot_list, m_hot_ids, m_hot_map, m_next, i);
      e := m_hot_list[i];
      m_hot_list, m_hot_ids := RemoveAt(m_hot_list, i), RemoveAt(m_hot_ids, i);
      m_hot_map := m_hot_map - {e.key};
    }

    /** Unlinks the last cold node. */
    method PopCold() returns (e: Entry<K, V>)
      requires Linked() && m_cold_list != []
      modifies `m_cold_list, `m_cold_ids, `m_cold_map
      ensures Linked()
      ensures var n := |old(m_cold_list)| - 1;
              e == old(m_cold_list)[n] && m_cold_list == old(m_cold_list)[..n]
    {
      LastPosition(m_cold_list, m_cold_ids, m_cold_map, m_next);
      e := EraseCold(m_cold_ids[|m_cold_ids| - 1]);
    }

    method PopHot() returns (e: Entry<K, V>)
      requires Linked() && m_hot_list != []
      modifies `m_hot_list, `m_hot_ids, `m_hot_map
      ensures Linked()
      ensures var n := |old(m_hot_list)| - 1;
              e == old(m_hot_list)[n] && m_hot_list == old(m_hot_list)[..n]
    {
      LastPosition(m_hot_list, m_hot_ids, m_hot_map, m_next);
      e := EraseHot(m_hot_ids[|m_hot_ids| - 1]);
    }

    method ReserveColdList(size: nat)
      requires Linked()
      modifies `m_cold_list, `m_cold_ids, `m_cold_map, `m_cold_size
      ensures Linked() && State() == ReserveCold(old(State()), size)
    {
      while m_cold_list != [] && Plus(m_cold_size, size) > m_max_cold_size
        invariant Linked() && ReserveCold(State(), size) == ReserveCold(old(State()), size)
        decreases |m_cold_list|
      {
        ghost var c, n := State(), |m_cold_list| - 1;
        var e := PopCold();
        m_cold_size := Minus(m_cold_size, e.size);
        assert State() == c.(cold := c.cold[..n], coldSize := Minus(c.coldSize, c.cold[n].size));
      }
    }

    /** One round of the demotion loop. */
    method DemoteLast()
      requires Linked() && m_hot_list != []
      modifies `m_hot_list, `m_hot_ids, `m_hot_map, `m_hot_size,
               `m_cold_list, `m_cold_ids, `m_cold_map, `m_cold_size, `m_next
      ensures Linked() && State() == Demote(old(State()))
    {
      var e := PopHot();
      m_hot_size := Minus(m_hot_size, e.size);
      m_cold_size := Plus(m_cold_size, e.size);
      ReplaceCold(e);
    }

    /** Puts a counted node in front of the cold list, in the place of one with the same key. */
    method ReplaceCold(e: Entry<K, V>)
      requires Linked()
      modifies `m_cold_list, `m_cold_ids, `m_cold_map, `m_cold_size, `m_next
      ensures Linked()
      ensures var cold := old(m_cold_list);
              var i := Find(cold, e.key);
              if i < |cold|
              then m_cold_list == [e] + RemoveAt(cold, i) && m_cold_size == Minus(old(m_cold_size), cold[i].size)
              else m_cold_list == [e] + cold && m_cold_size == old(m_cold_size)
    {
      TierFind(m_cold_list, m_cold_ids, m_cold_map, m_next, e.key);
      if e.key in m_cold_map {
        var stale := EraseCold(m_cold_map[e.key]);
        m_cold_size := Minus(m_cold_size, stale.size);
      }
      PushCold(e);
    }

    method ReserveHotList(size: nat)
      requires Linked()
      modifies `m_hot_list, `m_hot_ids, `m_hot_map, `m_hot_size,
               `m_cold_list, `m_cold_ids, `m_cold_map, `m_cold_size, `m_next
      ensures Linked() && State() == ReserveHot(old(State()), size)
    {
      while m_hot_list != [] && Plus(m_hot_size, size) > m_max_hot_size
        invariant Linked() && ReserveHot(State(), size) == ReserveHot(old(State()), size)
        decreases |m_hot_list|
      {
        DemoteLast();
      }
    }

    method Add(key: K, value: V, size: nat)
      requires Valid()
      modifies this
      ensures Valid() && State() == DoAdd(old(State()), Entry(key, value, size))
      ensures m_hit_count == old(m_hit_count) && m_miss_count == old(m_miss_count)
    {
      AddKeeps(State(), Entry(key, value, size));
      ReserveColdList(size);
      TierFind(m_cold_list, m_cold_ids, m_cold_map, m_next, key);
      if key !in m_cold_map {
        PushCold(Entry(key, value, size));
        m_cold_size := Plus(m_cold_size, size);
      }
    }

    method Get(key: K) returns (r: Option<V>)
      requires Valid()
      modifies this
      ensures Valid() && State() == DoGet(old(State()), key)
      ensures r == Logical(old(State()), key)
      ensures m_hit_count == old(m_hit_count) + (if r.Some? then 1 else 0)
      ensures m_miss_count == old(m_miss_count) + (if r.Some? then 0 else 1)
    {
      assert Inv(DoGet(State(), key)) by { GetKeepsContents(State(), key, key); }
      TierFind(m_hot_list, m_hot_ids, m_hot_map, m_next, key);
      TierFind(m_cold_list, m_cold_ids, m_cold_map, m_next, key);
      if key in m_hot_map {
        m_hit_count := m_hit_count + 1;
        var e := Refresh(key);
        return Some(e.value);
      }
      if key in m_cold_map {
        m_hit_count := m_hit_count + 1;
        var e := Promote(key);
        return Some(e.value);
      }
      m_miss_count := m_miss_count + 1;
      return None;
    }

    /** Moves a hot node to the front. */
    method Refresh(key: K) returns (e: Entry<K, V>)
      requires Linked() && key in m_hot_map
      modifies `m_hot_list, `m_hot_ids, `m_hot_map, `m_next
      ensures Linked() && State() == DoGet(old(State()), key)
      ensures Some(e.value) == Lookup(old(State()).hot, key)
    {
      TierFind(m_hot_list, m_hot_ids, m_hot_map, m_next, key);
      e := EraseHot(m_hot_map[key]);
      PushHot(e);
    }

    method Promote(key: K) returns (e: Entry<K, V>)
      requires Valid() && key !in m_hot_map && key in m_cold_map
      modifies `m_hot_list, `m_hot_ids, `m_hot_map, `m_hot_size,
               `m_cold_list, `m_cold_ids, `m_cold_map, `m_cold_size, `m_next
      ensures Linked() && State() == DoGet(old(State()), key)
      ensures Some(e.value) == Lookup(old(State()).cold, key)
    {
      ghost var c := State();
      TierFind(m_hot_list, m_hot_ids, m_hot_map, m_next, key);
      e := TakeColdNode(key);
      assert !Has(ReserveHot(State(), e.size).hot, key) by {
        TakeColdKeeps(c, Find(c.cold, key), key);
        ReserveHotAbsent(State(), e.size, key);
      }
      ReserveHotList(e.size);
      TierFind(m_hot_list, m_hot_ids, m_hot_map, m_next, key);
      PushHot(e);
    }

    method Delete(key: K) returns (ok: bool)
      requires Valid()
      modifies this
      ensures Valid() && State() == DoDelete(old(State()), key)
      ensures ok == (Logical(old(State()), key) != None)
      ensures m_hit_count == old(m_hit_count) && m_miss_count == old(m_miss_count)
    {
      assert Inv(DoDelete(State(), key)) by { DeleteContents(State(), key, key); }
      TierFind(m_hot_list, m_hot_ids, m_hot_map, m_next, key);
      TierFind(m_cold_list, m_cold_ids, m_cold_map, m_next, key);
      if key in m_hot_map {
        DeleteHot(key);
        return true;
      } else if key in m_cold_map {
        DeleteCold(key);
        return true;
      }
      return false;
    }

    method DeleteHot(key: K)
      requires Linked() && key in m_hot_map
      modifies `m_hot_list, `m_hot_ids, `m_hot_map, `m_hot_size
      ensures Linked() && State() == DoDelete(old(State()), key)
    {
      TierFind(m_hot_list, m_hot_ids, m_hot_map, m_next, key);
      var e := EraseHot(m_hot_map[key]);
      m_hot_size := Minus(m_hot_size, e.size);
    }

    method DeleteCold(key: K)
      requires Linked() && key !in m_hot_map && key in m_cold_map
      modifies `m_cold_list, `m_cold_ids, `m_cold_map, `m_cold_size
      ensures Linked() && State() == DoDelete(old(State()), key)
    {
      TierFind(m_hot_list, m_hot_ids, m_hot_map, m_next, key);
      var e := TakeColdNode(key);
    }

    /** Unlinks the cold node of a key and takes its size off the counter. */
    method TakeColdNode(key: K) returns (e: Entry<K, V>)
      requires Linked() && key in m_cold_map
      modifies `m_cold_list, `m_cold_ids, `m_cold_map, `m_cold_size
      ensures Linked()
      ensures var j := Find(old(m_cold_list), key);
              && j < |old(m_cold_list)| && e == old(m_cold_list)[j]
              && State() == TakeCold(old(State()), j)
    {
      TierFind(m_cold_list, m_cold_ids, m_cold_map, m_next, key);
      ghost var j := Find(m_cold_list, key);
      e := EraseCold(m_cold_map[key]);
      m_cold_size := Minus(m_cold_size, e.size);
      assert m_cold_list == RemoveAt(old(m_cold_list), j);
    }
  }

  lemma LastPosition<K, V>(list: seq<Entry<K, V>>, ids: seq<Iterator>, index: map<K, Iterator>, next: Iterator)
    requires Tier(list, ids, index, next) && list != []
    ensures var n := |ids| - 1;
            n < |list| && Position(ids, ids[n]) == n && RemoveAt(list, n) == list[..n]
  {
  }
}
