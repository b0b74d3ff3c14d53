/** What the allocator guarantees in every state that any interleaving can reach. */
module PoolRuns {
  import opened RawMemory
  import opened MemoryBlock
  import opened PoolModel

  /** A pool right after its initialisation over a BlockPool with the given cached blocks. */
  ghost predicate Init(p: Pool) {
    && PoolOk(p) && p.out == {} && p.free == [] && p.full == [] && p.ends == {}
    && p.places.Keys == p.arena && forall x :: x in p.places ==> p.places[x].InPool?
  }

  /** The pool over a BlockPool that holds the given blocks, all in [lo, hi). */
  function StartPool(bs: nat, esize: nat, freeList: nat, fullList: nat, lo: nat, hi: nat,
                     blocks: seq<nat>, cache: Block): Pool
  {
    Pool(bs, esize, freeList, fullList, lo, hi, (set x | x in blocks), cache,
         (map x | x in blocks :: InPool), [], [], {}, blocks, {})
  }

  lemma StartOk(bs: nat, esize: nat, freeList: nat, fullList: nat, lo: nat, hi: nat, blocks: seq<nat>, cache: Block)
    requires Config(bs, esize) && Distinct(blocks) && forall x :: x in blocks ==> lo <= x < hi
    requires BlockOk(cache) && cache.esize == esize && cache.used == {}
    requires Spread(StartPool(bs, esize, freeList, fullList, lo, hi, blocks, cache))
    ensures Init(StartPool(bs, esize, freeList, fullList, lo, hi, blocks, cache))
  {
  }

  ghost predicate Leads(p: Pool, steps: seq<Step>, end: Pool)
    decreases |steps|
  {
    if steps == [] then end == p
    else Enabled(p, steps[0]) && Leads(Apply(p, steps[0]), steps[1..], end)
  }

  ghost predicate Reachable(p: Pool) {
    exists start, steps :: Init(start) && Leads(start, steps, p)
  }

  lemma {:induction false} RunKeeps(p: Pool, steps: seq<Step>, end: Pool)
    requires PoolOk(p) && Leads(p, steps, end)
    ensures PoolOk(end)
    decreases |steps|
  {
    if steps == [] {
    } else {
      StepKeeps(p, steps[0]);
      RunKeeps(Apply(p, steps[0]), steps[1..], end);
    }
  }

  /** No step changes the sizes or moves the cache block. */
  lemma {:induction false} RunSizes(p: Pool, steps: seq<Step>, end: Pool)
    requires Leads(p, steps, end)
    ensures end.esize == p.esize && end.bs == p.bs && end.cache.base == p.cache.base && end.cache.size == p.cache.size
    decreases |steps|
  {
    if steps == [] {
    } else {
      RunSizes(Apply(p, steps[0]), steps[1..], end);
    }
  }

  lemma ReachableOk(p: Pool)
    requires Reachable(p)
    ensures PoolOk(p)
  {
    var start, steps :| Init(start) && Leads(start, steps, p);
    RunKeeps(start, steps, p);
  }

  // ------------------------------------------------------------- addresses

  /** The block an element belongs to. */
  function BlockOf(p: Pool, e: Elem): Block
    requires e.block == p.cache.base || (e.block in p.places && p.places[e.block].Attached?)
  {
    if e.block == p.cache.base then p.cache else p.places[e.block].b
  }

  lemma OutHasBlock(p: Pool, e: Elem)
    requires PoolOk(p) && e in p.out
    ensures e.block == p.cache.base || (e.block in p.places && p.places[e.block].Attached?)
    ensures var b := BlockOf(p, e);
            BlockOk(b) && b.base == e.block && b.esize == p.esize && e.i in b.used && e.i < b.max &&
            b.size == (if e.block == p.cache.base then p.cache.size else p.bs)
  {
    CacheNotBlock(p);
    assert IsOut(p.cache, p.places, e);
    if e.block != p.cache.base {
      assert PlaceOk(p, e.block, p.places[e.block]);
    }
  }

  /** The address a client has for an element. */
  function Address(p: Pool, e: Elem): nat
    requires e.block == p.cache.base || (e.block in p.places && p.places[e.block].Attached?)
  {
    Slot(BlockOf(p, e), e.i)
  }

  /** An element lies behind the head of its block and inside it. */
  lemma ElementInside(p: Pool, e: Elem)
    requires PoolOk(p) && e in p.out
    ensures e.block == p.cache.base || (e.block in p.places && p.places[e.block].Attached?)
    ensures e.block + HEAD <= Address(p, e) && Address(p, e) + p.esize <= e.block + BlockOf(p, e).size
    ensures BlockOf(p, e).size == if e.block == p.cache.base then p.cache.size else p.bs
  {
    OutHasBlock(p, e);
    SlotPlace(BlockOf(p, e), e.i);
  }

  /** No two elements that clients have overlap. */
  lemma ElementsDisjoint(p: Pool, d: Elem, e: Elem)
    requires Reachable(p) && d in p.out && e in p.out && d != e
    ensures d.block == p.cache.base || (d.block in p.places && p.places[d.block].Attached?)
    ensures e.block == p.cache.base || (e.block in p.places && p.places[e.block].Attached?)
    ensures Apart(Address(p, d), p.esize, Address(p, e), p.esize)
  {
    ReachableOk(p);
    ElementInside(p, d);
    ElementInside(p, e);
    OutHasBlock(p, d);
    OutHasBlock(p, e);
    if d.block == e.block {
      SlotsApart(BlockOf(p, d), d.i, e.i);
    } else {
      BlocksApart(p, d.block, e.block);
    }
  }

  /** In every run of a pool, two clients that each use as many bytes as they asked for do not meet. */
  lemma ClientsDisjoint(start: Pool, steps: seq<Step>, p: Pool, size: nat, d: Elem, e: Elem)
    requires Init(start) && Leads(start, steps, p) && size <= start.esize
    requires d in p.out && e in p.out && d != e
    ensures IsLive(p, d.block) && IsLive(p, e.block) && Apart(Address(p, d), size, Address(p, e), size)
    ensures e.block + HEAD <= Address(p, e) && Address(p, e) + size <= e.block + BlockOf(p, e).size
  {
    RunSizes(start, steps, p);
    ElementsDisjoint(p, d, e);
    ReachableOk(p);
    ElementInside(p, e);
  }

  /** The cache block or an attached block. */
  predicate IsLive(p: Pool, x: nat) {
    x == p.cache.base || (x in p.places && p.places[x].Attached?)
  }

  function SizeAt(p: Pool, x: nat): nat {
    if x == p.cache.base then p.cache.size else p.bs
  }

  lemma BlocksApart(p: Pool, x: nat, y: nat)
    requires PoolOk(p) && IsLive(p, x) && IsLive(p, y) && x != y
    ensures Apart(x, SizeAt(p, x), y, SizeAt(p, y))
  {
    assert x in p.places ==> Clear(p, x);
    assert y in p.places ==> Clear(p, y);
  }

  /** An element is inside exactly one live block, is not on that block's free chain, and clear of the
      first word of everything that is on any live block's chain. */
  lemma ElementNotChained(p: Pool, e: Elem, x: nat, k: nat)
    requires Reachable(p) && e in p.out && IsLive(p, x)
    ensures IsLive(p, e.block) && e.i !in BlockOf(p, e).chain
    ensures x != e.block ==> Apart(Address(p, e), p.esize, x, SizeAt(p, x))
    ensures var b := if x == p.cache.base then p.cache else p.places[x].b;
            k < |b.chain| ==> Apart(Address(p, e), p.esize, Slot(b, b.chain[k]), 8)
  {
    ReachableOk(p);
    ElementInside(p, e);
    OutHasBlock(p, e);
    var b := if x == p.cache.base then p.cache else p.places[x].b;
    if x != p.cache.base { assert PlaceOk(p, x, p.places[x]); }
    if x != e.block { BlocksApart(p, x, e.block); }
    if k < |b.chain| {
      SlotPlace(b, b.chain[k]);
      if x == e.block { SlotsApart(b, e.i, b.chain[k]); }
    }
  }

  // ------------------------------------------------------ lists and blocks

  /** An attached block with room is on the free list and only there. */
  lemma RoomMeansFreeList(p: Pool, x: nat)
    requires Reachable(p) && x in p.places && p.places[x].Attached?
    ensures x in p.free <==> x !in p.full
    ensures !IsFull(p.places[x].b) ==> x in p.free && x !in p.full
  {
    ReachableOk(p);
  }

  /** Used, chained and untouched elements add up in every block; every attached block has some out;
      allocation from a block fails exactly when all are. */
  lemma BlockConservation(p: Pool, x: nat)
    requires Reachable(p) && x in p.places && p.places[x].Attached?
    ensures var b := p.places[x].b;
            && |b.used| + |b.chain| + (b.max - b.bump) == b.max && 0 < |b.used| <= b.max
            && (IsFull(b) <==> |b.used| == b.max)
            && forall i :: i in b.used <==> Elem(x, i) in p.out
  {
    ReachableOk(p);
    assert PlaceOk(p, x, p.places[x]);
    Conservation(p.places[x].b);
    CacheNotBlock(p);
    forall i
      ensures i in p.places[x].b.used <==> Elem(x, i) in p.out
    {
      assert Elem(x, i) in p.out <==> IsOut(p.cache, p.places, Elem(x, i));
    }
  }

  /** No Alloc or Free is between two of its steps. */
  ghost predicate Quiet(p: Pool) {
    forall x :: x in p.places ==> p.places[x].InPool? || p.places[x].Attached?
  }

  /** Once everything has been freed, every block is back: the BlockPool has exactly its cached
      blocks again, each once, and no heap block is left. */
  lemma AllFreedAllBack(p: Pool)
    requires Reachable(p) && Quiet(p) && p.out == {}
    ensures p.free == [] && p.full == [] && p.ends == {}
    ensures p.places.Keys == p.arena && Distinct(p.idle) && forall x :: x in p.idle <==> x in p.arena
    ensures p.cache.used == {}
  {
    ReachableOk(p);
    forall x | x in p.places
      ensures p.places[x].InPool? && x in p.arena
    {
      if p.places[x].Attached? {
        assert PlaceOk(p, x, p.places[x]);
        var i :| i in p.places[x].b.used;
        assert IsOut(p.cache, p.places, Elem(x, i));
      }
    }
    if p.cache.used != {} {
      var i :| i in p.cache.used;
      assert IsOut(p.cache, p.places, Elem(p.cache.base, i));
    }
    SomeMember(p.free);
    SomeMember(p.full);
    assert forall a: nat :: !IsEnd(p.places, p.bs, a);
  }

  lemma SomeMember(s: seq<nat>)
    ensures s != [] ==> exists x :: x in s
  {
    if s != [] { assert s[0] in s; }
  }

  // ---------------------------------------------------- finding the owner

  /** The smallest end above an address, as std::set::upper_bound finds it. */
  predicate IsUpperBound(ends: set<nat>, a: nat, e: nat) {
    e in ends && a < e && forall x :: x in ends && a < x ==> e <= x
  }

  /** For an element of a pool block, the smallest end above its address is its own block's end. */
  lemma OwnerFound(p: Pool, e: Elem, end: nat)
    requires PoolOk(p) && e in p.out && e.block != p.cache.base && IsLive(p, e.block)
    ensures IsUpperBound(p.ends, Address(p, e), end) <==> end == EndOf(e.block, p.bs)
  {
    OutHasBlock(p, e);
    ElementInside(p, e);
    var a := Address(p, e);
    assert IsEnd(p.places, p.bs, EndOf(e.block, p.bs));
    forall y | y in p.ends && a < y
      ensures e.block + p.bs <= y
    {
      assert IsEnd(p.places, p.bs, y);
      var x := y - p.bs;
      assert x != e.block ==> Apart(x, p.bs, e.block, p.bs);
    }
  }

  // ------------------------------------------------- when a block is added

  /** An attached block with room. */
  predicate Roomy(p: Pool, x: nat) {
    x in p.places && p.places[x].Attached? && !IsFull(p.places[x].b)
  }

  /** Alloc goes for another block exactly if the cache block is full and so is the first block of
      the free list, if any; some attached block has room then exactly if one stands behind it. */
  lemma AllocGivesUp(p: Pool)
    requires Reachable(p)
    ensures Enabled(p, LockedAlloc)
    ensures AllocResult(p) == [] <==> IsFull(p.cache) && (p.free == [] || !Roomy(p, p.free[0]))
    ensures AllocResult(p) != [] ==>
              AllocResult(p)[0].block == if !IsFull(p.cache) then p.cache.base else p.free[0]
    ensures AllocResult(p) == [] ==>
              ((exists x :: Roomy(p, x)) <==> exists i :: 1 <= i < |p.free| && Roomy(p, p.free[i]))
  {
    ReachableOk(p);
    if AllocResult(p) == [] && exists x :: Roomy(p, x) {
      var x :| Roomy(p, x);
      assert x in p.free;
      var i :| 0 <= i < |p.free| && p.free[i] == x;
    }
  }

  /** A block without room never keeps its place in front: it goes to the tail of the full list. An
      allocation that succeeds leaves both lists alone. */
  lemma AllocMoves(p: Pool)
    requires Reachable(p)
    ensures Enabled(p, LockedAlloc)
    ensures var q := DoAlloc(p);
            if AllocResult(p) == [] && p.free != []
            then q.free == p.free[1..] && q.full == p.full + [p.free[0]]
            else q.free == p.free && q.full == p.full
  {
    ReachableOk(p);
  }

  /** Free leaves both lists alone unless the block is empty now and leaves its list, or had no room
      and goes to the tail of the free list. */
  lemma FreeMoves(p: Pool, e: Elem)
    requires Reachable(p) && e in p.out
    ensures IsLive(p, e.block)
    ensures var q, b := DoFree(p, e), BlockOf(p, e);
            if e.block == p.cache.base || (!IsFull(b) && |b.used| > 1)
            then q.free == p.free && q.full == p.full
            else if |b.used| == 1
            then q.free == RemoveOne(p.free, e.block) && q.full == RemoveOne(p.full, e.block)
            else q.free == RemoveOne(p.free, e.block) + [e.block] && q.full == RemoveOne(p.full, e.block)
  {
    assert IsLive(p, e.block) && BlockOk(BlockOf(p, e)) && e.i in BlockOf(p, e).used by {
      ReachableOk(p);
      OutHasBlock(p, e);
    }
    FreeResultIs(BlockOf(p, e), e.i);
  }

  lemma {:induction false} LeadsOn(p: Pool, steps: seq<Step>, q: Pool, step: Step)
    requires Leads(p, steps, q) && Enabled(q, step)
    ensures Leads(p, steps + [step], Apply(q, step))
    decreases |steps|
  {
    if steps == [] {
      assert Leads(Apply(p, step), [], Apply(q, step));
      assert steps + [step] == [step];
    } else {
      LeadsOn(Apply(p, steps[0]), steps[1..], q, step);
      assert (steps + [step])[1..] == steps[1..] + [step];
    }
  }

  lemma ReachableStep(p: Pool, step: Step)
    requires Reachable(p) && Enabled(p, step)
    ensures Reachable(Apply(p, step))
  {
    var start, steps :| Init(start) && Leads(start, steps, p);
    LeadsOn(start, steps, p, step);
  }

  /** The pool after an Alloc has brought in the heap block x. */
  function WithBlock(p: Pool, x: nat): Pool
    requires Config(p.bs, p.esize)
  {
    p.(places := p.places[x := Attached(AllocBlock(NewBlock(x, p.bs, p.esize)))], free := [x] + p.free,
       ends := p.ends + {EndOf(x, p.bs)}, out := p.out + {Elem(x, 0)})
  }

  lemma PreparedReachable(p: Pool, x: nat, b: Block)
    requires Reachable(p) && FreshRange(p, x) && Config(p.bs, p.esize) && b == AllocBlock(NewBlock(x, p.bs, p.esize))
    ensures Reachable(p.(places := p.places[x := Prepared(b)]))
  {
    var p1 := Apply(p, FetchHeap(x));
    assert Reachable(p1) by { ReachableStep(p, FetchHeap(x)); }
    assert Apply(p1, Prepare(x)) == p.(places := p.places[x := Prepared(b)]) by {
      assert p1.places[x := Prepared(b)] == p.places[x := Prepared(b)];
    }
    ReachableStep(p1, Prepare(x));
  }

  lemma WithBlockReachable(p: Pool, x: nat)
    requires Reachable(p) && FreshRange(p, x) && Config(p.bs, p.esize)
    ensures Reachable(WithBlock(p, x))
  {
    var b := AllocBlock(NewBlock(x, p.bs, p.esize));
    var p2 := p.(places := p.places[x := Prepared(b)]);
    assert Reachable(p2) by { PreparedReachable(p, x, b); }
    assert Apply(p2, Publish(x)) == WithBlock(p, x) by {
      assert p2.places[x := Attached(b)] == p.places[x := Attached(b)];
    }
    ReachableStep(p2, Publish(x));
  }

  lemma FullAfterTwo(x: nat, bs: nat, esize: nat)
    requires Config(bs, esize) && (bs - HEAD) / esize == 2
    ensures var b := AllocBlock(NewBlock(x, bs, esize));
            !IsFull(b) && IsFull(AllocBlock(b))
  {
  }

  lemma FrontFilled(p: Pool, x: nat, y: nat)
    requires IsFull(p.cache) && p.free == [] && x != y && Config(p.bs, p.esize) && (p.bs - HEAD) / p.esize == 2
    ensures var p2 := WithBlock(WithBlock(p, x), y);
            && Enabled(p2, LockedAlloc)
            && var q := DoAlloc(p2);
               Enabled(q, LockedAlloc) && AllocResult(q) == [] && Roomy(q, x)
  {
    FullAfterTwo(x, p.bs, p.esize);
    FullAfterTwo(y, p.bs, p.esize);
  }

  lemma StillFresh(p: Pool, x: nat, y: nat)
    requires Config(p.bs, p.esize) && FreshRange(p, y) && Apart(x, p.bs, y, p.bs)
    ensures FreshRange(WithBlock(p, x), y)
  {
    assert Clear(p, y);
  }

  /** Two Allocs that overlap bring in a block of two elements each; a third one fills the block in
      front. The next one will get another block although the block behind has room. */
  lemma PassesOver(p: Pool, x: nat, y: nat) returns (q: Pool)
    requires Reachable(p) && IsFull(p.cache) && p.free == [] && Config(p.bs, p.esize) && (p.bs - HEAD) / p.esize == 2
    requires FreshRange(p, x) && FreshRange(p, y) && Apart(x, p.bs, y, p.bs)
    ensures Reachable(q) && Enabled(q, LockedAlloc) && AllocResult(q) == [] && Roomy(q, x)
  {
    var p1 := WithBlock(p, x);
    assert Reachable(p1) by { WithBlockReachable(p, x); }
    var p2 := WithBlock(p1, y);
    assert Reachable(p2) by {
      StillFresh(p, x, y);
      WithBlockReachable(p1, y);
    }
    FrontFilled(p, x, y);
    q := DoAlloc(p2);
    assert Reachable(q) by { ReachableStep(p2, LockedAlloc); }
  }

  /** A pool of 4096-byte blocks for two elements each, with an empty cache block. */
  lemma SmallPool() returns (p: Pool)
    ensures Reachable(p) && IsFull(p.cache) && p.free == [] && p.bs == 4096 && p.esize == 2024 && p.places == map[]
    ensures p.freeList == 16 && p.fullList == 32 && p.cache.base == 48 && p.cache.size == 40
    ensures p.lo == p.hi == 0 && p.arena == {}
  {
    var cache := NewBlock(48, 40, 2024);
    NewBlockOk(48, 40, 2024);
    p := StartPool(4096, 2024, 16, 32, 0, 0, [], cache);
    assert Init(p) by { StartOk(4096, 2024, 16, 32, 0, 0, [], cache); }
    assert Leads(p, [], p);
  }

  /** That a block is added only when no attached block has room is not so in this state. */
  lemma RoomPassedOver() returns (p: Pool)
    ensures Reachable(p) && Enabled(p, LockedAlloc) && AllocResult(p) == [] && Roomy(p, 4096)
  {
    var start := SmallPool();
    p := PassesOver(start, 4096, 8192);
  }
}
