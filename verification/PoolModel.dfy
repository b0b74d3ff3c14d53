/** The small-object allocator as a protocol (src/memory_pool.cpp): what each stretch of Alloc and
    Free between two lock operations does to the blocks, in any interleaving of any threads. */
module PoolModel {
  import opened RawMemory
  import opened MemoryBlock

  /** Where a pool block is: cached in the BlockPool; fetched by an Alloc; prepared by it, one element
      taken; attached to the pool; or taken off by a Free that has yet to give it back. */
  datatype Place = InPool | Fetched | Prepared(b: Block) | Attached(b: Block) | Returning

  /** Element i of the block at an address. */
  datatype Elem = Elem(block: nat, i: nat)

  /** ends holds the end addresses of the attached blocks, out the elements the clients have.
      Blocks of the BlockPool's cache (arena) lie in [lo, hi), all others come from the heap. */
  datatype Pool = Pool(
    bs: nat, esize: nat, freeList: nat, fullList: nat,
    lo: nat, hi: nat, arena: set<nat>,
    cache: Block, places: map<nat, Place>,
    free: seq<nat>, full: seq<nat>, ends: set<nat>, idle: seq<nat>,
    out: set<Elem>)

  // -------------------------------------------------------------- invariant

  predicate Config(bs: nat, esize: nat) {
    esize >= 8 && bs >= HEAD && 1 <= (bs - HEAD) / esize <= 65535
  }

  /** A block at x would lie clear of the cache block and of the list heads. */
  predicate Clear(p: Pool, x: nat) {
    && x > 0 && Apart(x, p.bs, p.cache.base, p.cache.size)
    && Apart(x, p.bs, p.freeList, NODE) && Apart(x, p.bs, p.fullList, NODE)
  }

  /** Blocks, cache block and list heads are pairwise disjoint ranges. */
  ghost predicate Spread(p: Pool) {
    && p.freeList > 0 && p.fullList > 0 && Apart(p.freeList, NODE, p.fullList, NODE)
    && Apart(p.cache.base, p.cache.size, p.freeList, NODE) && Apart(p.cache.base, p.cache.size, p.fullList, NODE)
    && (forall x :: x in p.places ==> Clear(p, x))
    && (forall x, y :: x in p.places && y in p.places && x != y ==> Apart(x, p.bs, y, p.bs))
  }

  ghost predicate ArenaOk(p: Pool) {
    && p.arena <= p.places.Keys
    && (forall x :: x in p.places ==> (p.lo <= x < p.hi <==> x in p.arena))
  }

  predicate HasBlock(pl: Place) {
    pl.Prepared? || pl.Attached?
  }

  /** A block in use belongs where it is; an attached one always has an element out. */
  ghost predicate PlaceOk(p: Pool, x: nat, pl: Place) {
    HasBlock(pl) ==>
      && BlockOk(pl.b) && pl.b.base == x && pl.b.size == p.bs && pl.b.esize == p.esize && pl.b.used != {}
      && (pl.Prepared? ==> pl.b.used == {0})
  }

  ghost predicate BlocksOk(p: Pool) {
    && BlockOk(p.cache) && p.cache.esize == p.esize
    && forall x :: x in p.places ==> PlaceOk(p, x, p.places[x])
  }

  /** Every attached block is on exactly one list; those on the full list have no room. */
  ghost predicate ListsOk(places: map<nat, Place>, free: seq<nat>, full: seq<nat>) {
    && Distinct(free) && Distinct(full)
    && (forall x :: x in free ==> x !in full && x in places && places[x].Attached?)
    && (forall x :: x in full ==> x in places && places[x].Attached? && IsFull(places[x].b))
    && (forall x :: x in places && places[x].Attached? ==> x in free || x in full)
  }

  /** The address behind a block. */
  function EndOf(x: nat, bs: nat): nat {
    x + bs
  }

  predicate IsEnd(places: map<nat, Place>, bs: nat, a: nat) {
    a >= bs && a - bs in places && places[a - bs].Attached?
  }

  ghost predicate EndsOk(places: map<nat, Place>, bs: nat, ends: set<nat>) {
    forall a: nat :: a in ends <==> IsEnd(places, bs, a)
  }

  /** The BlockPool's list holds exactly the blocks that are with it, all from its cache. */
  ghost predicate IdleOk(p: Pool) {
    && Distinct(p.idle)
    && (forall x :: x in p.idle ==> x in p.places && p.places[x].InPool?)
    && (forall x :: x in p.places && p.places[x].InPool? ==> x in p.idle && x in p.arena)
  }

  predicate IsOut(cache: Block, places: map<nat, Place>, e: Elem) {
    || (e.block == cache.base && e.i in cache.used)
    || (e.block in places && places[e.block].Attached? && e.i in places[e.block].b.used)
  }

  ghost predicate OutOk(p: Pool) {
    forall e :: e in p.out <==> IsOut(p.cache, p.places, e)
  }

  ghost predicate PoolOk(p: Pool) {
    && Config(p.bs, p.esize) && Spread(p) && ArenaOk(p) && BlocksOk(p)
    && ListsOk(p.places, p.free, p.full) && EndsOk(p.places, p.bs, p.ends) && IdleOk(p) && OutOk(p)
  }

  // ------------------------------------------------------------------ steps

  datatype Step =
    | LockedAlloc            // Alloc, under the lock: cache block, then the first free block
    | FetchCached            // Alloc, from the BlockPool's cache
    | FetchHeap(x: nat)      // Alloc, from the heap
    | Prepare(x: nat)        // Alloc, initialise the private block and take its first element
    | Publish(x: nat)        // Alloc, under the lock: attach the block
    | LockedFree(e: Elem)    // Free, under the lock
    | GiveBack(x: nat)       // Free, return an empty block

  function RemoveOne(s: seq<nat>, x: nat): seq<nat> {
    if s == [] then [] else if s[0] == x then s[1..] else [s[0]] + RemoveOne(s[1..], x)
  }

  /** The heap hands out memory that nobody has. */
  ghost predicate FreshRange(p: Pool, x: nat) {
    && Clear(p, x) && x !in p.arena && !(p.lo <= x < p.hi)
    && forall y :: y in p.places ==> Apart(x, p.bs, y, p.bs)
  }

  ghost predicate Enabled(p: Pool, step: Step) {
    match step
    case LockedAlloc => p.free != [] ==> p.free[0] in p.places && p.places[p.free[0]].Attached?
    case FetchCached => p.idle != []
    case FetchHeap(x) => FreshRange(p, x)
    case Prepare(x) => x in p.places && p.places[x].Fetched? && Config(p.bs, p.esize)
    case Publish(x) => x in p.places && p.places[x].Prepared?
    case LockedFree(e) =>
      e in p.out && (e.block == p.cache.base || (e.block in p.places && p.places[e.block].Attached?))
    case GiveBack(x) => x in p.places && p.places[x].Returning?
  }

  /** What LockedAlloc hands out, if anything. */
  function AllocResult(p: Pool): seq<Elem>
    requires p.free != [] ==> p.free[0] in p.places && p.places[p.free[0]].Attached?
  {
    if !IsFull(p.cache) then [Elem(p.cache.base, AllocIndex(p.cache))]
    else if p.free != [] && !IsFull(p.places[p.free[0]].b) then
      [Elem(p.free[0], AllocIndex(p.places[p.free[0]].b))]
    else []
  }

  function DoAlloc(p: Pool): Pool
    requires p.free != [] ==> p.free[0] in p.places && p.places[p.free[0]].Attached?
  {
    if !IsFull(p.cache) then
      p.(cache := AllocBlock(p.cache), out := p.out + {Elem(p.cache.base, AllocIndex(p.cache))})
    else if p.free == [] then p
    else
      var h := p.free[0];
      var b := p.places[h].b;
      if !IsFull(b) then
        p.(places := p.places[h := Attached(AllocBlock(b))], out := p.out + {Elem(h, AllocIndex(b))})
      else
        p.(free := p.free[1..], full := p.full + [h])
  }

  function DoFree(p: Pool, e: Elem): Pool
    requires e.block == p.cache.base || (e.block in p.places && p.places[e.block].Attached?)
  {
    if e.block == p.cache.base then
      p.(cache := FreeBlock(p.cache, e.i), out := p.out - {e})
    else
      var x := e.block;
      var b := FreeBlock(p.places[x].b, e.i);
      var p' := p.(out := p.out - {e});
      match FreeResult(b)
      case 1 =>
        p'.(places := p.places[x := Returning], free := RemoveOne(p.free, x), full := RemoveOne(p.full, x),
            ends := p.ends - {EndOf(x, p.bs)})
      case 0 =>
        p'.(places := p.places[x := Attached(b)],
            free := RemoveOne(p.free, x) + [x], full := RemoveOne(p.full, x))
      case _ =>
        p'.(places := p.places[x := Attached(b)])
  }

  ghost function Apply(p: Pool, step: Step): Pool
    requires Enabled(p, step)
  {
    match step
    case LockedAlloc => DoAlloc(p)
    case FetchCached => p.(idle := p.idle[1..], places := p.places[p.idle[0] := Fetched])
    case FetchHeap(x) => p.(places := p.places[x := Fetched])
    case Prepare(x) => p.(places := p.places[x := Prepared(AllocBlock(NewBlock(x, p.bs, p.esize)))])
    case Publish(x) =>
      p.(places := p.places[x := Attached(p.places[x].b)], free := [x] + p.free,
         ends := p.ends + {EndOf(x, p.bs)}, out := p.out + {Elem(x, 0)})
    case LockedFree(e) => DoFree(p, e)
    case GiveBack(x) =>
      if p.lo <= x < p.hi then p.(places := p.places[x := InPool], idle := [x] + p.idle)
      else p.(places := p.places - {x})
  }

  // -------------------------------------------------- every step keeps it

  lemma DistinctCons(a: nat, s: seq<nat>)
    requires Distinct(s) && a !in s
    ensures Distinct([a] + s)
  {
  }

  lemma DistinctSnoc(s: seq<nat>, a: nat)
    requires Distinct(s) && a !in s
    ensures Distinct(s + [a])
  {
  }

  lemma {:induction false} RemoveOneOk(s: seq<nat>, x: nat)
    requires Distinct(s)
    ensures Distinct(RemoveOne(s, x)) && forall y :: y in RemoveOne(s, x) <==> y in s && y != x
  {
    if s == [] {
    } else {
      DistinctTail(s);
      RemoveOneOk(s[1..], x);
      if s[0] != x {
        DistinctCons(s[0], RemoveOne(s[1..], x));
      }
    }
  }

  lemma DistinctTail(s: seq<nat>)
    requires s != [] && Distinct(s)
    ensures Distinct(s[1..]) && forall y :: y in s[1..] <==> y in s && y != s[0]
  {
    assert s == [s[0]] + s[1..];
  }

  /** A change of one block's place leaves the layout as it is. */
  lemma SamePlaces(p: Pool, p': Pool)
    requires Spread(p) && ArenaOk(p)
    requires p'.places.Keys == p.places.Keys
    requires p'.bs == p.bs && p'.freeList == p.freeList && p'.fullList == p.fullList
    requires p'.lo == p.lo && p'.hi == p.hi && p'.arena == p.arena
    requires p'.cache.base == p.cache.base && p'.cache.size == p.cache.size
    ensures Spread(p') && ArenaOk(p')
  {
    forall x | x in p'.places
      ensures Clear(p', x)
    {
      assert x in p.places && Clear(p, x);
    }
  }

  predicate IsAttached(places: map<nat, Place>, x: nat) {
    x in places && places[x].Attached?
  }

  /** The ends follow when one block joins or leaves, or none does. */
  lemma EndsKeep(places: map<nat, Place>, places': map<nat, Place>, bs: nat, ends: set<nat>, x: nat)
    requires EndsOk(places, bs, ends)
    requires forall y :: y != x ==> IsAttached(places', y) == IsAttached(places, y)
    ensures EndsOk(places', bs, if IsAttached(places', x) then ends + {EndOf(x, bs)} else ends - {EndOf(x, bs)})
    ensures IsAttached(places, x) <==> EndOf(x, bs) in ends
  {
    assert IsAttached(places, x) <==> IsEnd(places, bs, EndOf(x, bs));
    var ends' := if IsAttached(places', x) then ends + {EndOf(x, bs)} else ends - {EndOf(x, bs)};
    forall a: nat
      ensures a in ends' <==> IsEnd(places', bs, a)
    {
      if a >= bs {
        assert IsEnd(places, bs, a) <==> IsAttached(places, a - bs);
        assert IsEnd(places', bs, a) <==> IsAttached(places', a - bs);
      }
    }
  }

  lemma EndsSame(p: Pool, p': Pool, x: nat)
    requires EndsOk(p.places, p.bs, p.ends) && p'.bs == p.bs && p'.ends == p.ends
    requires forall y :: y != x ==> IsAttached(p'.places, y) == IsAttached(p.places, y)
    requires IsAttached(p'.places, x) == IsAttached(p.places, x)
    ensures EndsOk(p'.places, p'.bs, p'.ends)
  {
    EndsKeep(p.places, p'.places, p.bs, p.ends, x);
    assert p.ends == if IsAttached(p'.places, x) then p.ends + {EndOf(x, p.bs)} else p.ends - {EndOf(x, p.bs)};
  }

  lemma CacheNotBlock(p: Pool)
    requires Spread(p) && BlockOk(p.cache) && p.bs > 0
    ensures p.cache.base !in p.places
  {
    assert p.cache.base in p.places ==> Clear(p, p.cache.base);
  }

  /** Only the block at h changes. */
  lemma BlocksKeep(p: Pool, p': Pool, h: nat)
    requires BlocksOk(p) && p'.bs == p.bs && p'.esize == p.esize
    requires BlockOk(p'.cache) && p'.cache.esize == p.esize
    requires forall y :: y in p'.places && y != h ==> y in p.places && p'.places[y] == p.places[y]
    requires h in p'.places ==> PlaceOk(p', h, p'.places[h])
    ensures BlocksOk(p')
  {
    forall x | x in p'.places
      ensures PlaceOk(p', x, p'.places[x])
    {
      if x != h {
        assert PlaceOk(p, x, p.places[x]);
      }
    }
  }

  lemma AllocFromCache(p: Pool)
    requires PoolOk(p) && !IsFull(p.cache)
    ensures PoolOk(DoAlloc(p)) && Elem(p.cache.base, AllocIndex(p.cache)) !in p.out
  {
    var p' := DoAlloc(p);
    AllocOk(p.cache);
    CacheNotBlock(p);
    SamePlaces(p, p');
    BlocksKeep(p, p', p.cache.base);
    assert OutOk(p');
  }

  lemma AllocFromBlock(p: Pool)
    requires PoolOk(p) && IsFull(p.cache) && p.free != [] && !IsFull(p.places[p.free[0]].b)
    ensures PoolOk(DoAlloc(p)) && Elem(p.free[0], AllocIndex(p.places[p.free[0]].b)) !in p.out
  {
    var p', h := DoAlloc(p), p.free[0];
    assert PlaceOk(p, h, p.places[h]);
    AllocOk(p.places[h].b);
    CacheNotBlock(p);
    SamePlaces(p, p');
    BlocksKeep(p, p', h);
    assert ListsOk(p'.places, p'.free, p'.full);
    assert OutOk(p') by { OutChange(p, p', Elem(h, AllocIndex(p.places[h].b))); }
    assert EndsOk(p'.places, p'.bs, p'.ends) by { EndsSame(p, p', h); }
  }

  /** One element more or less is out, and nothing else changes for the clients. */
  lemma OutChange(p: Pool, p': Pool, e: Elem)
    requires OutOk(p)
    requires forall d :: d != e ==> IsOut(p'.cache, p'.places, d) == IsOut(p.cache, p.places, d)
    requires p'.out == if IsOut(p'.cache, p'.places, e) then p.out + {e} else p.out - {e}
    ensures OutOk(p')
  {
  }

  /** Moving a block without room from the free to the full list. */
  lemma MoveToFull(p: Pool)
    requires PoolOk(p) && IsFull(p.cache) && p.free != [] && IsFull(p.places[p.free[0]].b)
    ensures PoolOk(DoAlloc(p))
  {
    var p', h := DoAlloc(p), p.free[0];
    DistinctTail(p.free);
    DistinctSnoc(p.full, h);
    SamePlaces(p, p');
    BlocksKeep(p, p', h);
    assert ListsOk(p'.places, p'.free, p'.full) by {
      assert forall x :: x in p'.full <==> x in p.full || x == h;
    }
  }

  lemma AllocKeeps(p: Pool)
    requires PoolOk(p)
    ensures Enabled(p, LockedAlloc) && PoolOk(DoAlloc(p))
    ensures forall e :: e in AllocResult(p) ==> e !in p.out
  {
    if !IsFull(p.cache) {
      AllocFromCache(p);
    } else if p.free != [] {
      if !IsFull(p.places[p.free[0]].b) { AllocFromBlock(p); } else { MoveToFull(p); }
    }
  }

  lemma FetchCachedKeeps(p: Pool)
    requires PoolOk(p) && p.idle != []
    ensures PoolOk(Apply(p, FetchCached))
  {
    var p', x := Apply(p, FetchCached), p.idle[0];
    DistinctTail(p.idle);
    SamePlaces(p, p');
    BlocksKeep(p, p', x);
    assert IdleOk(p') && ListsOk(p'.places, p'.free, p'.full);
    assert EndsOk(p'.places, p'.bs, p'.ends) by { EndsSame(p, p', x); }
  }

  lemma FetchHeapKeeps(p: Pool, x: nat)
    requires PoolOk(p) && FreshRange(p, x)
    ensures PoolOk(Apply(p, FetchHeap(x))) && x !in p.places
  {
    var p' := Apply(p, FetchHeap(x));
    assert x !in p.places by { assert x in p.places ==> Apart(x, p.bs, x, p.bs); }
    BlocksKeep(p, p', x);
    assert Spread(p') by {
      forall y | y in p'.places
        ensures Clear(p', y)
      {
        assert y != x ==> Clear(p, y);
      }
    }
    assert IdleOk(p') && ListsOk(p'.places, p'.free, p'.full);
    assert OutOk(p') by { assert forall e :: IsOut(p'.cache, p'.places, e) == IsOut(p.cache, p.places, e); }
    assert EndsOk(p'.places, p'.bs, p'.ends) by { EndsSame(p, p', x); }
  }

  lemma PrepareKeeps(p: Pool, x: nat)
    requires PoolOk(p) && Enabled(p, Prepare(x))
    ensures PoolOk(Apply(p, Prepare(x)))
  {
    var p', b := Apply(p, Prepare(x)), NewBlock(x, p.bs, p.esize);
    assert Clear(p, x);
    NewBlockOk(x, p.bs, p.esize);
    AllocOk(b);
    SamePlaces(p, p');
    BlocksKeep(p, p', x);
    assert IdleOk(p') && ListsOk(p'.places, p'.free, p'.full);
    assert OutOk(p') by { assert forall e :: IsOut(p'.cache, p'.places, e) == IsOut(p.cache, p.places, e); }
    assert EndsOk(p'.places, p'.bs, p'.ends) by { EndsSame(p, p', x); }
  }

  lemma PublishEnds(p: Pool, p': Pool, x: nat)
    requires EndsOk(p.places, p.bs, p.ends) && p'.bs == p.bs && IsAttached(p'.places, x)
    requires p'.places == p.places[x := p'.places[x]] && p'.ends == p.ends + {EndOf(x, p.bs)}
    ensures EndsOk(p'.places, p'.bs, p'.ends)
  {
    EndsKeep(p.places, p'.places, p.bs, p.ends, x);
  }

  lemma PublishKeeps(p: Pool, x: nat)
    requires PoolOk(p) && Enabled(p, Publish(x))
    ensures PoolOk(Apply(p, Publish(x))) && Elem(x, 0) !in p.out
  {
    var p' := Apply(p, Publish(x));
    assert PlaceOk(p, x, p.places[x]);
    CacheNotBlock(p);
    SamePlaces(p, p');
    BlocksKeep(p, p', x);
    DistinctCons(x, p.free);
    assert IdleOk(p');
    assert ListsOk(p'.places, p'.free, p'.full) by {
      assert forall y :: y in p'.free <==> y in p.free || y == x;
    }
    assert OutOk(p') by { OutChange(p, p', Elem(x, 0)); }
    assert EndsOk(p'.places, p'.bs, p'.ends) by { PublishEnds(p, p', x); }
  }

  lemma FreeToCache(p: Pool, e: Elem)
    requires PoolOk(p) && e in p.out && e.block == p.cache.base
    ensures PoolOk(DoFree(p, e))
  {
    var p' := DoFree(p, e);
    CacheNotBlock(p);
    assert IsOut(p.cache, p.places, e);
    FreeOk(p.cache, e.i);
    SamePlaces(p, p');
    BlocksKeep(p, p', p.cache.base);
    assert OutOk(p') by { OutChange(p, p', e); }
  }

  /** What is known about a block when one of its elements comes back. */
  lemma FreedBlock(p: Pool, e: Elem)
    requires PoolOk(p) && e in p.out && e.block != p.cache.base
    ensures e.block in p.places && p.places[e.block].Attached? && e.i in p.places[e.block].b.used
    ensures var b, b' := p.places[e.block].b, FreeBlock(p.places[e.block].b, e.i);
            && BlockOk(b) && BlockOk(b') && !IsFull(b')
            && b.base == e.block && b.size == p.bs && b.esize == p.esize
            && (FreeResult(b') == 1 <==> b'.used == {})
            && (e.block in p.full ==> FreeResult(b') != -1)
  {
    var x := e.block;
    assert IsOut(p.cache, p.places, e);
    assert PlaceOk(p, x, p.places[x]);
    FreeOk(p.places[x].b, e.i);
    Conservation(p.places[x].b);
  }

  lemma FreeOut(p: Pool, p': Pool, e: Elem)
    requires PoolOk(p) && e in p.out && e.block != p.cache.base && p'.out == p.out - {e} && p'.cache == p.cache
    requires e.block in p.places && p.places[e.block].Attached?
    requires var b' := FreeBlock(p.places[e.block].b, e.i);
             p'.places == p.places[e.block := if b'.used == {} then Returning else Attached(b')]
    ensures OutOk(p')
  {
    var b := p.places[e.block].b;
    OutChange(p, p', e);
  }

  lemma FreeLists(p: Pool, e: Elem)
    requires PoolOk(p) && e in p.out && e.block != p.cache.base
    requires e.block in p.places && p.places[e.block].Attached?
    ensures var p' := DoFree(p, e);
            ListsOk(p'.places, p'.free, p'.full)
  {
    var p', x := DoFree(p, e), e.block;
    FreedBlock(p, e);
    RemoveOneOk(p.free, x);
    RemoveOneOk(p.full, x);
    DistinctSnoc(RemoveOne(p.free, x), x);
    assert forall y :: y in RemoveOne(p.free, x) + [x] <==> y in RemoveOne(p.free, x) || y == x;
  }

  lemma FreeEnds(p: Pool, p': Pool, x: nat)
    requires EndsOk(p.places, p.bs, p.ends) && IsAttached(p.places, x) && x in p'.places && p'.bs == p.bs
    requires p'.places == p.places[x := p'.places[x]]
    requires p'.ends == if p'.places[x].Attached? then p.ends else p.ends - {EndOf(x, p.bs)}
    ensures EndsOk(p'.places, p'.bs, p'.ends)
  {
    EndsKeep(p.places, p'.places, p.bs, p.ends, x);
    assert p.ends + {EndOf(x, p.bs)} == p.ends;
  }

  /** What a Free into a pool block changes: that block's place, the lists, the ends, the elements out. */
  lemma FreeChanges(p: Pool, e: Elem)
    requires e.block != p.cache.base && e.block in p.places && p.places[e.block].Attached?
    ensures var p', b := DoFree(p, e), FreeBlock(p.places[e.block].b, e.i);
            && p' == p.(places := p'.places, free := p'.free, full := p'.full, ends := p'.ends, out := p.out - {e})
            && p'.places == p.places[e.block := if FreeResult(b) == 1 then Returning else Attached(b)]
            && p'.ends == if FreeResult(b) == 1 then p.ends - {EndOf(e.block, p.bs)} else p.ends
  {
  }

  lemma FreeToBlock(p: Pool, e: Elem)
    requires PoolOk(p) && e in p.out && e.block != p.cache.base
    ensures e.block in p.places && p.places[e.block].Attached? && PoolOk(DoFree(p, e))
  {
    FreedBlock(p, e);
    var p', x := DoFree(p, e), e.block;
    FreeChanges(p, e);
    assert Spread(p') && ArenaOk(p') by { SamePlaces(p, p'); }
    assert BlocksOk(p') by { BlocksKeep(p, p', x); }
    assert ListsOk(p'.places, p'.free, p'.full) by { FreeLists(p, e); }
    assert OutOk(p') by { FreeOut(p, p', e); }
    assert IdleOk(p');
    assert EndsOk(p'.places, p'.bs, p'.ends) by { FreeEnds(p, p', x); }
  }

  lemma FreeKeeps(p: Pool, e: Elem)
    requires PoolOk(p) && e in p.out
    ensures Enabled(p, LockedFree(e)) && PoolOk(DoFree(p, e))
  {
    if e.block == p.cache.base { FreeToCache(p, e); } else { FreeToBlock(p, e); }
  }

  lemma GiveBackKeeps(p: Pool, x: nat)
    requires PoolOk(p) && Enabled(p, GiveBack(x))
    ensures PoolOk(Apply(p, GiveBack(x)))
  {
    var p' := Apply(p, GiveBack(x));
    BlocksKeep(p, p', x);
    assert ListsOk(p'.places, p'.free, p'.full);
    assert OutOk(p') by { assert forall e :: IsOut(p'.cache, p'.places, e) == IsOut(p.cache, p.places, e); }
    if p.lo <= x < p.hi {
      SamePlaces(p, p');
      DistinctCons(x, p.idle);
      assert IdleOk(p') by { assert forall y :: y in p'.idle <==> y in p.idle || y == x; }
    } else {
      assert Spread(p') by {
        forall y | y in p'.places
          ensures Clear(p', y)
        {
          assert Clear(p, y);
        }
      }
    }
    assert EndsOk(p'.places, p'.bs, p'.ends) by { EndsSame(p, p', x); }
  }

  lemma StepKeeps(p: Pool, step: Step)
    requires PoolOk(p) && Enabled(p, step)
    ensures PoolOk(Apply(p, step))
  {
    match step
    case LockedAlloc => AllocKeeps(p);
    case FetchCached => FetchCachedKeeps(p);
    case FetchHeap(x) => FetchHeapKeeps(p, x);
    case Prepare(x) => PrepareKeeps(p, x);
    case Publish(x) => PublishKeeps(p, x);
    case LockedFree(e) => FreeKeeps(p, e);
    case GiveBack(x) => GiveBackKeeps(p, x);
  }
}
