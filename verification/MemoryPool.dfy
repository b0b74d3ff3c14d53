/** The small-object allocator in raw memory (src/memory_pool.cpp): each method is one stretch of
    Alloc or Free between two lock operations, and is proved to take the model's step. */
module MemoryPool {
  import opened RawMemory
  import opened Collections
  import opened MemoryBlock
  import C = CircularList
  import opened BlockPool
  import opened PoolModel
  import opened PoolMemory
  import opened PoolRuns
  import Bits

  /** The size of a block with room for n elements. */
  function HeadAnd(n: nat, esize: nat): (r: nat)
    ensures r >= HEAD
  {
    n * esize + HEAD
  }

  class MemoryPool {
    const m: Memory
    const m_block_pool: BlockPool
    const m_free_list: nat
    const m_full_list: nat
    var m_used_cnt: nat
    var m_element_size: nat
    var m_cache_block_head: nat
    var m_cache_block_end: nat
    var m_blocks: set<nat>
    ghost var p: Pool

    /** The fields hold what the model's pool holds, and m_used_cnt the given number. */
    ghost predicate FieldsAre(q: Pool, used: int)
      reads this, m_block_pool
    {
      && q.freeList == m_free_list && q.fullList == m_full_list && q.esize == m_element_size
      && m_cache_block_head == q.cache.base && m_cache_block_end == q.cache.base + q.cache.size
      && m_used_cnt == used && m_blocks == q.ends
      && m_block_pool.m_block_size == q.bs && m_block_pool.m_free_blocks == q.idle
      && m_block_pool.m_cache_start == q.lo && m_block_pool.m_cache_end == q.hi
    }

    ghost predicate Fields(q: Pool)
      reads this, m_block_pool
    {
      FieldsAre(q, |q.out|)
    }

    ghost predicate Valid()
      reads this, m, m_block_pool
    {
      PoolOk(p) && PoolRep(m.cells, p) && Fields(p)
    }

    /** The model takes a step that memory and fields have taken. */
    ghost method Become(q: Pool)
      requires PoolOk(q) && PoolRep(m.cells, q) && Fields(q)
      modifies `p
      ensures Valid() && p == q
    {
      p := q;
    }

    constructor (m: Memory, block_pool: BlockPool, free_list: nat, full_list: nat)
      requires Apart(free_list, NODE, full_list, NODE)
      modifies m
      ensures this.m == m && m_block_pool == block_pool && m_free_list == free_list && m_full_list == full_list
      ensures C.Circle(m.cells, free_list, []) && C.Circle(m.cells, full_list, [])
      ensures m_used_cnt == 0 && m_cache_block_head == NULL && m_blocks == {}
    {
      this.m, m_block_pool, m_free_list, m_full_list := m, block_pool, free_list, full_list;
      m_used_cnt, m_element_size, m_cache_block_head, m_cache_block_end, m_blocks := 0, 0, NULL, NULL, {};
      new;
      C.ListInit(m, free_list);
      C.ListInit(m, full_list);
    }

    /** buf is what the heap returned for the cache block. */
    method Init(element_size: nat, cache_num: nat, buf: nat) returns (ok: bool)
      requires C.Circle(m.cells, m_free_list, []) && C.Circle(m.cells, m_full_list, [])
      requires m_used_cnt == 0 && m_blocks == {} && element_size >= 1 && cache_num <= 65535
      requires var e := AlignUp(element_size, 8);
               var blocks, bs := m_block_pool.m_free_blocks, m_block_pool.m_block_size;
               && Config(bs, e) && HeadAnd(cache_num, e) < 0x1_0000_0000 && Distinct(blocks)
               && (forall x :: x in blocks ==> m_block_pool.m_cache_start <= x < m_block_pool.m_cache_end)
               && (buf != NULL ==> Spread(StartPool(bs, e, m_free_list, m_full_list, m_block_pool.m_cache_start,
                                    m_block_pool.m_cache_end, blocks, NewBlock(buf, HeadAnd(cache_num, e), e))))
      modifies this, m
      ensures ok == (buf != NULL)
      ensures ok ==> Valid() && PoolRuns.Init(p) && p.cache.max == cache_num
      ensures ok ==> p.esize % 8 == 0 && element_size <= p.esize < element_size + 8
    {
      m_element_size := AlignUp(element_size, 8);
      var total_size := HeadAnd(cache_num, m_element_size);
      if buf == NULL {
        return false;
      }
      m_cache_block_head := buf;
      m_cache_block_end := buf + total_size;
      ghost var cache := NewBlock(buf, total_size, m_element_size);
      CacheNumber(cache_num, m_element_size);
      NewBlockOk(buf, total_size, m_element_size);
      p := StartPool(m_block_pool.m_block_size, m_element_size, m_free_list, m_full_list, m_block_pool.m_cache_start,
                     m_block_pool.m_cache_end, m_block_pool.m_free_blocks, cache);
      StartOk(p.bs, p.esize, p.freeList, p.fullList, p.lo, p.hi, p.idle, cache);
      ghost var before := m.cells;
      MemoryBlockInit(m, m_cache_block_head, total_size, m_element_size);
      assert ListsRep(m.cells, p) by {
        BodyChange(before, m.cells, p, buf);
        ListsFrame(before, m.cells, p);
      }
      return true;
    }

    /** A client uses an element it has: nothing of the pool is damaged. */
    method ClientWrite(a: nat, v: nat, ghost e: Elem)
      requires Valid() && e in p.out && IsLive(p, e.block)
      requires Address(p, e) <= a < Address(p, e) + p.esize
      modifies m
      ensures Valid() && m.cells == old(m.cells)[a := v]
    {
      OutHasBlock(p, e);
      ElementInside(p, e);
      ClientWriteKeeps(m.cells, BlockOf(p, e), e.i, a, v);
      m.Store(a, v);
      assert OnlyIn(old(m.cells), m.cells, e.block + NODE, e.block + BlockOf(p, e).size);
      assert BodiesRep(m.cells, p) by { OtherBodies(old(m.cells), m.cells, p, e.block); }
      assert ListsRep(m.cells, p) by {
        BodyChange(old(m.cells), m.cells, p, e.block);
        ListsFrame(old(m.cells), m.cells, p);
      }
    }

    // ------------------------------------------------------------- Alloc

    /** The address of the first element of a list, null if there is none. */
    ghost predicate Gives(ptr: nat, result: seq<Elem>)
      reads this
    {
      if result == [] then ptr == NULL
      else IsLive(p, result[0].block) && ptr == Address(p, result[0]) && ptr != NULL
    }

    method GetFreeMemoryBlock() returns (head: nat)
      requires Valid()
      ensures head == if p.free == [] then NULL else p.free[0]
      ensures head == NULL <==> p.free == []
    {
      FreeSeparate(p);
      assert C.Linked(m.cells, C.Ring(m_free_list, p.free)[0], C.Ring(m_free_list, p.free)[1]);
      var empty := C.ListEmpty(m, m_free_list, p.free);
      if empty {
        return NULL;
      }
      assert p.free[0] in p.free && Clear(p, p.free[0]);
      return C.Next(m.cells, m_free_list);
    }

    /** The first stretch of Alloc: the cache block, else the first block of the free list, which
        goes to the full list if it has no room. */
    method AllocLocked() returns (ptr: nat)
      requires Valid()
      modifies this, m
      ensures Valid() && Enabled(old(p), LockedAlloc) && p == DoAlloc(old(p))
      ensures Gives(ptr, AllocResult(old(p)))
    {
      AllocKeeps(p);
      ptr := MemoryAlloc(m, m_cache_block_head, p.cache);
      if ptr != NULL {
        FromCache(old(m.cells));
        return;
      }
      assert PoolRep(m.cells, p) by { CacheChanged(old(m.cells), m.cells, p, p); }
      var head := GetFreeMemoryBlock();
      if head != NULL {
        ptr := AllocFromHead(head);
      }
    }

    /** Bookkeeping after an element was taken from the cache block. */
    method FromCache(ghost c: Cells)
      requires PoolOk(p) && PoolRep(c, p) && Fields(p) && !IsFull(p.cache)
      requires OnlyIn(c, m.cells, p.cache.base + NODE, p.cache.base + HEAD) && Rep(m.cells, AllocBlock(p.cache))
      modifies this
      ensures Valid() && p == DoAlloc(old(p))
      ensures var i := AllocIndex(old(p).cache);
              IsLive(p, p.cache.base) && Address(p, Elem(p.cache.base, i)) == Slot(old(p).cache, i)
    {
      AllocFromCache(p);
      CacheChanged(c, m.cells, p, DoAlloc(p));
      p := DoAlloc(p);
      m_used_cnt := m_used_cnt + 1;
    }

    method AllocFromHead(head: nat) returns (ptr: nat)
      requires Valid() && IsFull(p.cache) && p.free != [] && head == p.free[0]
      modifies this, m
      ensures Valid() && Enabled(old(p), LockedAlloc) && p == DoAlloc(old(p))
      ensures Gives(ptr, AllocResult(old(p)))
    {
      ghost var c := m.cells;
      BlockFacts(p, head);
      ptr := MemoryAlloc(m, head, p.places[head].b);
      assert OnlyIn(c, m.cells, head + NODE, head + p.bs);
      if ptr != NULL {
        FromBlock(head, c);
        return;
      }
      assert PoolRep(m.cells, p) by { BlockChanged(c, m.cells, p, p, head); }
      ToFullList(head);
    }

    method FromBlock(head: nat, ghost c: Cells)
      requires PoolOk(p) && PoolRep(c, p) && Fields(p)
      requires IsFull(p.cache) && p.free != [] && head == p.free[0] && !IsFull(p.places[head].b)
      requires OnlyIn(c, m.cells, head + NODE, head + p.bs) && Rep(m.cells, AllocBlock(p.places[head].b))
      modifies this
      ensures Valid() && p == DoAlloc(old(p))
      ensures var i := AllocIndex(old(p).places[head].b);
              IsLive(p, head) && Address(p, Elem(head, i)) == Slot(old(p).places[head].b, i)
    {
      ghost var p' := DoAlloc(p);
      TakenFields(p, head);
      m_used_cnt := m_used_cnt + 1;
      assert Fields(p');
      assert PoolOk(p') && PoolRep(m.cells, p') by { TakenDone(c, m.cells, p, head); }
      Become(p');
    }

    /** ListDelete and ListAddTail for a block without room. */
    method ToFullList(head: nat)
      requires Valid() && IsFull(p.cache) && p.free != [] && head == p.free[0] && IsFull(p.places[head].b)
      modifies this, m
      ensures Valid() && p == DoAlloc(old(p))
      ensures p.free == old(p.free)[1..] && p.full == old(p.full) + [head]
    {
      BlockFacts(p, head);
      HeadRemoved(p.free);
      NotThere(p.full, head);
      ghost var q := p.(free := p.free[1..]);
      ghost var c := m.cells;
      Unlink(head, p);
      ghost var c1 := m.cells;
      LinkFullTail(head, q);
      assert BodiesRep(m.cells, p) by {
        BodiesThrough(c, c1, m.cells, p, q);
        BodiesFrame(c, m.cells, p);
      }
      ghost var p' := p.(free := p.free[1..], full := p.full + [head]);
      assert p' == DoAlloc(p);
      assert PoolOk(p') by { MoveToFull(p); }
      Become(p');
    }

    /** m_block_pool.Alloc(), outside the lock; heap is what the heap would give. */
    method Fetch(heap: nat) returns (x: nat)
      requires Valid() && (p.idle == [] ==> FreshRange(p, heap))
      modifies `p, m_block_pool
      ensures Valid() && x in p.places && p.places[x].Fetched? && p.out == old(p.out)
      ensures if old(p).idle == [] then x == heap && p == Apply(old(p), FetchHeap(heap))
              else x == old(p).idle[0] && p == Apply(old(p), FetchCached)
    {
      x := m_block_pool.Alloc(heap);
      ghost var p' := if p.idle == [] then Apply(p, FetchHeap(heap)) else Apply(p, FetchCached);
      assert PoolOk(p') by {
        if p.idle == [] { FetchHeapKeeps(p, heap); } else { FetchCachedKeeps(p); }
      }
      assert p.idle != [] ==> p.idle[0] in p.idle;
      assert PoolRep(m.cells, p') by { PlaceChanged(m.cells, p, p', x); }
      Become(p');
    }

    /** Initialises a fetched block, which no other thread can see, and takes its first element. */
    method PrepareBlock(x: nat) returns (ptr: nat)
      requires Valid() && x in p.places && p.places[x].Fetched?
      modifies `p, m
      ensures Valid() && p.out == old(p.out) && x in p.places && p.places[x].Prepared?
      ensures p == Apply(old(p), Prepare(x)) && ptr == Slot(p.places[x].b, 0) && ptr != NULL
    {
      ghost var c := m.cells;
      FetchedFacts(p, x);
      ghost var p' := Apply(p, Prepare(x));
      PrepareFields(p, x);
      ptr := InitAndAlloc(m, x, m_block_pool.m_block_size, m_element_size);
      assert Fields(p');
      assert PoolOk(p') && PoolRep(m.cells, p') by { PrepareDone(c, m.cells, p, x); }
      Become(p');
    }

    /** The last stretch of Alloc: the block joins the pool, and the client gets its first element. */
    method PublishBlock(x: nat)
      requires Valid() && x in p.places && p.places[x].Prepared?
      modifies this, m
      ensures Valid() && p == Apply(old(p), Publish(x)) && p.free == [x] + old(p.free)
    {
      ghost var c, p' := m.cells, Apply(p, Publish(x));
      PublishFields(p, x);
      AddMemoryBlock(x);
      m_used_cnt := m_used_cnt + 1;
      assert Fields(p');
      assert PoolOk(p') && PoolRep(m.cells, p') by { PublishDone(c, m.cells, p, x); }
      Become(p');
    }

    /** The block's end joins the set of ends and its node the head of the free list. */
    method AddMemoryBlock(x: nat)
      requires Valid() && x in p.places && p.places[x].Prepared?
      modifies `m_blocks, m
      ensures m_blocks == p.ends + {EndOf(x, p.bs)}
      ensures ListsRep(m.cells, p.(free := [x] + p.free)) && BodiesSame(old(m.cells), m.cells, p)
    {
      m_blocks := m_blocks + {EndOf(x, m_block_pool.m_block_size)};
      assert LayoutOk(p) && Loose(p, x) by { PoolLayout(p); }
      LinkFreeHead(x, p);
    }

    // -------------------------------------------------------------- Free

    /** The block whose end is the smallest one above an address. */
    method FindMemoryBlock(ptr: nat, ghost e: Elem) returns (head: nat)
      requires Valid() && e in p.out && e.block != p.cache.base && IsLive(p, e.block) && ptr == Address(p, e)
      ensures head == e.block
    {
      ghost var mine := EndOf(e.block, p.bs);
      assert IsUpperBound(m_blocks, ptr, mine) by { OwnerFound(p, e, mine); }
      var end := UpperBound(m_blocks, ptr, mine);
      assert end == mine;
      return end - m_block_pool.m_block_size;
    }

    /** The first stretch of Free. Returns the block if it has to be given back, else null. */
    method FreeLocked(element: nat, ghost e: Elem) returns (back: nat)
      requires Valid() && e in p.out && IsLive(p, e.block) && element == Address(p, e)
      modifies this, m
      ensures Valid() && p == DoFree(old(p), e)
      ensures back == if e.block in p.places && p.places[e.block].Returning? then e.block else NULL
    {
      OutHasBlock(p, e);
      ElementInside(p, e);
      CacheNotBlock(p);
      if element < m_cache_block_end && element >= m_cache_block_head {
        InCacheRange(p, e);
        ToCache(element, e);
        return NULL;
      }
      var head := FindMemoryBlock(element, e);
      back := ToBlock(head, element, e);
    }

    method ToCache(element: nat, ghost e: Elem)
      requires Valid() && e in p.out && e.block == p.cache.base && element == Slot(p.cache, e.i)
      modifies this, m
      ensures Valid() && p == DoFree(old(p), e) && e.block !in p.places
    {
      ghost var c := m.cells;
      OutHasBlock(p, e);
      CacheNotBlock(p);
      var ret := MemoryFree(m, m_cache_block_head, element, p.cache, e.i);
      assert Rep(m.cells, FreeBlock(p.cache, e.i)) by { SlotPlace(p.cache, e.i); }
      ghost var p' := p.(cache := FreeBlock(p.cache, e.i), out := p.out - {e});
      assert p' == DoFree(p, e);
      assert PoolOk(p') by { FreeToCache(p, e); }
      assert PoolRep(m.cells, p') by { CacheChanged(c, m.cells, p, p'); }
      m_used_cnt := m_used_cnt - 1;
      Become(p');
    }

    method ToBlock(head: nat, element: nat, ghost e: Elem) returns (back: nat)
      requires Valid() && e in p.out && e.block != p.cache.base && IsLive(p, e.block) && element == Address(p, e)
      requires head == e.block
      modifies this, m
      ensures Valid() && p == DoFree(old(p), e)
      ensures back == if e.block in p.places && p.places[e.block].Returning? then e.block else NULL
    {
      ghost var mid := Midway(p, e);
      var ret := FreeElement(head, element, mid, e);
      back := Settle(mid, head, ret, e);
    }

    method FreeElement(head: nat, element: nat, ghost mid: Pool, ghost e: Elem) returns (ret: int)
      requires Valid() && e in p.out && e.block != p.cache.base && IsLive(p, e.block) && element == Address(p, e)
      requires head == e.block && mid == Midway(p, e)
      modifies `m_used_cnt, m
      ensures Freed(mid, e) && ret == FreeResult(mid.places[e.block].b)
    {
      OutFacts(p, e);
      m_used_cnt := m_used_cnt - 1;
      ret := MemoryFree(m, head, element, p.places[head].b, e.i);
      assert FieldsAre(p, |p.out| - 1);
      assert LayoutOk(mid) && PoolRep(m.cells, mid) by { MidDone(old(m.cells), m.cells, p, e); }
    }

    /** What Free does with the block, by the result of MemoryFree. */
    method Settle(ghost mid: Pool, head: nat, ret: int, ghost e: Elem) returns (back: nat)
      requires Freed(mid, e) && head == e.block && ret == FreeResult(mid.places[e.block].b)
      modifies this, m
      ensures Valid() && p == DoFree(old(p), e)
      ensures back == if e.block in p.places && p.places[e.block].Returning? then e.block else NULL
    {
      if ret < 0 {
        Stays(mid, e);
        return NULL;
      } else if ret == 0 {
        HasRoomAgain(mid, head, e);
        return NULL;
      } else {
        RemoveMemoryBlock(mid, head, e);
        return head;
      }
    }

    /** The state of ToBlock after MemoryFree: mid is p with the freed block. */
    ghost predicate Freed(mid: Pool, e: Elem)
      reads this, m, m_block_pool
    {
      && PoolOk(p) && e in p.out && e.block != p.cache.base && IsLive(p, e.block) && LayoutOk(mid)
      && mid == Midway(p, e)
      && PoolRep(m.cells, mid)
      && FieldsAre(p, |p.out| - 1)
    }

    ghost method Stays(mid: Pool, e: Elem)
      requires Freed(mid, e) && FreeResult(mid.places[e.block].b) == -1
      modifies `p
      ensures Valid() && p == DoFree(old(p), e) && p.places[e.block].Attached?
      ensures p.free == old(p.free) && p.full == old(p.full)
    {
      var p' := mid.(out := p.out - {e});
      assert p' == DoFree(p, e);
      assert PoolOk(p') by { FreeKeeps(p, e); }
      Become(p');
    }

    method HasRoomAgain(ghost mid: Pool, head: nat, ghost e: Elem)
      requires Freed(mid, e) && head == e.block && FreeResult(mid.places[e.block].b) == 0
      modifies `p, m
      ensures Valid() && p == DoFree(old(p), e) && p.places[e.block].Attached?
      ensures p.free == RemoveOne(old(p.free), head) + [head] && p.full == RemoveOne(old(p.full), head)
    {
      ghost var c := m.cells;
      ghost var q := mid.(free := RemoveOne(p.free, head), full := RemoveOne(p.full, head));
      Unlink(head, mid);
      ghost var c1 := m.cells;
      LinkFreeTail(head, q);
      ghost var p' := q.(free := q.free + [head], out := p.out - {e});
      assert p' == DoFree(p, e);
      assert PoolOk(p') by { FreeKeeps(p, e); }
      assert BodiesRep(m.cells, p') by { Moved(c, c1, m.cells, mid, q, p'); }
      Become(p');
    }

    method RemoveMemoryBlock(ghost mid: Pool, head: nat, ghost e: Elem)
      requires Freed(mid, e) && head == e.block && FreeResult(mid.places[e.block].b) == 1
      modifies this, m
      ensures Valid() && p == DoFree(old(p), e) && p.places[e.block].Returning?
      ensures m_blocks == old(m_blocks) - {EndOf(head, old(p.bs))}
    {
      ghost var c := m.cells;
      var end := EndOf(head, m_block_pool.m_block_size);
      Unlink(head, mid);
      var ends: set<nat> := m_blocks - {end};
      ghost var p' := DoFree(p, e);
      RemoveDone(c, m.cells, p, mid, e);
      m_blocks := ends;
      Become(p');
    }

    /** m_block_pool.Free(), outside the lock. */
    method GiveBackBlock(x: nat)
      requires Valid() && x in p.places && p.places[x].Returning?
      modifies `p, m_block_pool
      ensures Valid() && p == Apply(old(p), GiveBack(x))
    {
      var toHeap := m_block_pool.Free(x);
      ghost var p' := Apply(p, GiveBack(x));
      assert PoolOk(p') by { GiveBackKeeps(p, x); }
      assert PoolRep(m.cells, p') by { PlaceChanged(m.cells, p, p', x); }
      Become(p');
    }

    // ------------------------------------------------ whole calls, undisturbed

    /** Alloc when no other thread comes in between: one new element, never null. */
    method Alloc(heap: nat) returns (ptr: nat, ghost e: Elem)
      requires Valid() && (p.idle == [] ==> FreshRange(p, heap))
      modifies this, m, m_block_pool
      ensures Valid() && e !in old(p.out) && p.out == old(p.out) + {e}
      ensures IsLive(p, e.block) && ptr == Address(p, e) && ptr != NULL
    {
      AllocOutcome(p, heap);
      ptr := AllocLocked();
      if ptr != NULL {
        e := AllocResult(old(p))[0];
      } else {
        ptr, e := AllocNewBlock(heap);
      }
    }

    /** The part of Alloc that brings in another block. */
    method AllocNewBlock(heap: nat) returns (ptr: nat, ghost e: Elem)
      requires Valid() && (p.idle == [] ==> FreshRange(p, heap))
      modifies this, m, m_block_pool
      ensures Valid() && e !in old(p.out) && p.out == old(p.out) + {e}
      ensures IsLive(p, e.block) && ptr == Address(p, e) && ptr != NULL
    {
      var x := Fetch(heap);
      ptr := PrepareBlock(x);
      e := Elem(x, 0);
      assert p.out == old(p.out);
      PublishOutcome(p, x);
      PublishBlock(x);
    }

    /** Free when no other thread comes in between. */
    method Free(element: nat, ghost e: Elem)
      requires Valid() && e in p.out && IsLive(p, e.block) && element == Address(p, e)
      modifies this, m, m_block_pool
      ensures Valid() && p == WholeFree(old(p), e)
    {
      FreeOutcome(p, e);
      var back := FreeLocked(element, e);
      if back != NULL {
        GiveBackBlock(back);
      }
    }

    // ------------------------------------------------------------- lists

    /** ListDelete of a block on either list. */
    method Unlink(x: nat, ghost q: Pool)
      requires LayoutOk(q) && ListsRep(m.cells, q) && q.freeList == m_free_list && q.fullList == m_full_list
      requires x in q.free || x in q.full
      modifies m
      ensures var q' := q.(free := RemoveOne(q.free, x), full := RemoveOne(q.full, x));
              LayoutOk(q') && ListsRep(m.cells, q') && Loose(q', x)
      ensures BodiesSame(old(m.cells), m.cells, q)
    {
      ghost var list, s, i;
      if x in q.free {
        i :| 0 <= i < |q.free| && q.free[i] == x;
        list, s := m_free_list, q.free;
        DetachFree(m.cells, q, i);
      } else {
        i :| 0 <= i < |q.full| && q.full[i] == x;
        list, s := m_full_list, q.full;
        DetachFull(m.cells, q, i);
      }
      C.ListDelete(m, x, list, s, i);
      RemoveAtOk(s, i);
      if x in q.free { NotThere(q.full, x); } else { NotThere(q.free, x); }
    }

    method LinkFullTail(x: nat, ghost q: Pool)
      requires LayoutOk(q) && ListsRep(m.cells, q) && q.fullList == m_full_list && Loose(q, x)
      modifies m
      ensures ListsRep(m.cells, q.(full := q.full + [x])) && BodiesSame(old(m.cells), m.cells, q)
    {
      AttachFull(m.cells, q, x);
      C.ListAddTail(m, x, m_full_list, q.full);
      assert C.InsertAt(q.full, |q.full|, x) == q.full + [x];
    }

    method LinkFreeTail(x: nat, ghost q: Pool)
      requires LayoutOk(q) && ListsRep(m.cells, q) && q.freeList == m_free_list && Loose(q, x)
      modifies m
      ensures ListsRep(m.cells, q.(free := q.free + [x])) && BodiesSame(old(m.cells), m.cells, q)
    {
      AttachFree(m.cells, q, |q.free|, x);
      C.ListAddTail(m, x, m_free_list, q.free);
      assert C.InsertAt(q.free, |q.free|, x) == q.free + [x];
    }

    method LinkFreeHead(x: nat, ghost q: Pool)
      requires LayoutOk(q) && ListsRep(m.cells, q) && q.freeList == m_free_list && Loose(q, x)
      modifies m
      ensures ListsRep(m.cells, q.(free := [x] + q.free)) && BodiesSame(old(m.cells), m.cells, q)
    {
      AttachFree(m.cells, q, 0, x);
      C.ListAddHead(m, x, m_free_list, q.free);
      assert C.InsertAt(q.free, 0, x) == [x] + q.free;
    }
  }

  /** The BlockPool's buffer, the list heads and the cache block are disjoint. */
  predicate Placed(buf: nat, size: nat, freeList: nat, fullList: nat, cacheBuf: nat, cacheSize: nat) {
    && buf > 0 && freeList > 0 && fullList > 0 && cacheBuf > 0 && Apart(freeList, NODE, fullList, NODE)
    && Apart(cacheBuf, cacheSize, freeList, NODE) && Apart(cacheBuf, cacheSize, fullList, NODE)
    && Apart(buf, size, cacheBuf, cacheSize) && Apart(buf, size, freeList, NODE) && Apart(buf, size, fullList, NODE)
  }

  /** A BlockPool and a MemoryPool on it, both initialised. */
  method NewPool(bs: nat, n: nat, buf: nat, freeList: nat, fullList: nat,
                 element_size: nat, cache_num: nat, cacheBuf: nat)
      returns (pool: MemoryPool)
    requires bs >= BLOCK_ALIGN && bs % BLOCK_ALIGN == 0 && element_size >= 1 && cache_num <= 65535
    requires var e := AlignUp(element_size, 8);
             && Config(bs, e) && HeadAnd(cache_num, e) < 0x1_0000_0000
             && Placed(buf, CacheBytes(bs, n), freeList, fullList, cacheBuf, HeadAnd(cache_num, e))
    ensures fresh(pool) && fresh(pool.m) && fresh(pool.m_block_pool)
    ensures pool.Valid() && PoolRuns.Init(pool.p) && pool.p.idle == Carve(buf, bs, n) && pool.p.cache.max == cache_num
    ensures pool.p.esize % 8 == 0 && element_size <= pool.p.esize < element_size + 8
  {
    var blocks := new BlockPool();
    var ok := blocks.Init(bs, n, buf);
    assert blocks.m_free_blocks == Carve(buf, bs, n);
    var m := new Memory();
    pool := new MemoryPool(m, blocks, freeList, fullList);
    ghost var e := AlignUp(element_size, 8);
    CarveReady(buf, bs, n, blocks.m_cache_end, e, freeList, fullList, NewBlock(cacheBuf, HeadAnd(cache_num, e), e));
    ok := pool.Init(element_size, cache_num, cacheBuf);
  }

  /** Free undoes Alloc: the same elements are out as before, and no block is under way. */
  method AllocThenFree(pool: MemoryPool, heap: nat)
    requires pool.Valid() && (pool.p.idle == [] ==> FreshRange(pool.p, heap))
    modifies pool, pool.m, pool.m_block_pool
    ensures pool.Valid() && pool.p.out == old(pool.p.out)
  {
    ghost var e;
    var ptr;
    ptr, e := pool.Alloc(heap);
    FreeOutcome(pool.p, e);
    pool.Free(ptr, e);
  }

  /** Either an element new to the clients, or nothing but a change of lists. */
  lemma AllocOutcome(p: Pool, heap: nat)
    requires PoolOk(p) && (p.idle == [] ==> FreshRange(p, heap))
    ensures Enabled(p, LockedAlloc)
    ensures var p', r := DoAlloc(p), AllocResult(p);
            if r == [] then p'.out == p.out && (p'.idle == [] ==> FreshRange(p', heap))
            else r[0] !in p.out && p'.out == p.out + {r[0]}
  {
    AllocKeeps(p);
    assert AllocResult(p) != [] ==> AllocResult(p)[0] in AllocResult(p);
  }

  lemma PublishOutcome(p: Pool, x: nat)
    requires PoolOk(p) && Enabled(p, Publish(x))
    ensures var p' := Apply(p, Publish(x));
            && Elem(x, 0) !in p.out && p'.out == p.out + {Elem(x, 0)} && IsLive(p', x)
            && Address(p', Elem(x, 0)) == Slot(p.places[x].b, 0)
  {
    PublishKeeps(p, x);
    CacheNotBlock(p);
  }

  /** All stretches of a Free in a row. */
  ghost function WholeFree(p: Pool, e: Elem): Pool
    requires IsLive(p, e.block)
  {
    var p' := DoFree(p, e);
    if e.block in p'.places && p'.places[e.block].Returning? then Apply(p', GiveBack(e.block)) else p'
  }

  /** A whole Free takes just that element back, and leaves no block between two places. */
  lemma FreeOutcome(p: Pool, e: Elem)
    requires PoolOk(p) && e in p.out && IsLive(p, e.block)
    ensures WholeFree(p, e).out == p.out - {e} && (Quiet(p) ==> Quiet(WholeFree(p, e)))
    ensures e.block in p.places ==> e.block > 0
  {
    CacheNotBlock(p);
    assert e.block in p.places ==> Clear(p, e.block);
    if e.block != p.cache.base {
      FreeChanges(p, e);
    }
  }

  lemma BlockFacts(p: Pool, x: nat)
    requires PoolOk(p) && x in p.free + p.full
    ensures x in p.places && p.places[x].Attached? && x != p.cache.base && IsNode(p, x)
    ensures var b := p.places[x].b;
            BlockOk(b) && b.base == x && b.size == p.bs && b.first >= HEAD && p.bs >= HEAD
    ensures x in p.free ==> x !in p.full
    ensures x != p.freeList && x != p.fullList
  {
    assert PlaceOk(p, x, p.places[x]);
    CacheNotBlock(p);
    ListHeadsNoBlocks(p);
  }

  lemma PoolLayout(p: Pool)
    requires PoolOk(p)
    ensures LayoutOk(p)
    ensures forall x :: x in p.places && !p.places[x].Attached? ==> Loose(p, x)
  {
  }

  /** What attaching and removing blocks leaves alone. */
  predicate SameFrame(p: Pool, p': Pool) {
    && p'.freeList == p.freeList && p'.fullList == p.fullList && p'.esize == p.esize && p'.bs == p.bs
    && p'.cache == p.cache && p'.idle == p.idle && p'.lo == p.lo && p'.hi == p.hi
  }

  /** MemoryBlockInit and the first MemoryAlloc on the new block. */
  method InitAndAlloc(m: Memory, x: nat, size: nat, esize: nat) returns (ptr: nat)
    requires esize > 0 && size >= HEAD && (size - HEAD) / esize <= 65535
    requires BlockOk(NewBlock(x, size, esize)) && !IsFull(NewBlock(x, size, esize))
    modifies m
    ensures Rep(m.cells, AllocBlock(NewBlock(x, size, esize)))
    ensures OnlyIn(old(m.cells), m.cells, x + NODE, x + HEAD)
    ensures ptr == Slot(NewBlock(x, size, esize), 0) && ptr != NULL
  {
    MemoryBlockInit(m, x, size, esize);
    ptr := MemoryAlloc(m, x, NewBlock(x, size, esize));
  }

  /** An element has been taken from the first block of the free list. */
  predicate TakesFront(p: Pool, head: nat) {
    IsFull(p.cache) && p.free != [] && head == p.free[0] && Roomy(p, head)
  }

  lemma TakenFields(p: Pool, head: nat)
    requires PoolOk(p) && TakesFront(p, head)
    ensures var p', i := DoAlloc(p), AllocIndex(p.places[head].b);
            && |p'.out| == |p.out| + 1 && p'.ends == p.ends && SameFrame(p, p')
            && IsLive(p', head) && Address(p', Elem(head, i)) == Slot(p.places[head].b, i)
  {
    AllocFromBlock(p);
    BlockFacts(p, head);
  }

  lemma TakenDone(c: Cells, c': Cells, p: Pool, head: nat)
    requires PoolOk(p) && PoolRep(c, p) && TakesFront(p, head)
    requires OnlyIn(c, c', head + NODE, head + p.bs) && Rep(c', AllocBlock(p.places[head].b))
    ensures PoolOk(DoAlloc(p)) && PoolRep(c', DoAlloc(p))
  {
    BlockFacts(p, head);
    assert PoolRep(c', DoAlloc(p)) by { BlockChanged(c, c', p, DoAlloc(p), head); }
    AllocFromBlock(p);
  }

  lemma PublishFields(p: Pool, x: nat)
    requires PoolOk(p) && Enabled(p, Publish(x))
    ensures var p' := Apply(p, Publish(x));
            |p'.out| == |p.out| + 1 && p'.ends == p.ends + {EndOf(x, p.bs)} && SameFrame(p, p')
  {
    PublishKeeps(p, x);
  }

  lemma PublishDone(c: Cells, c': Cells, p: Pool, x: nat)
    requires PoolOk(p) && Enabled(p, Publish(x)) && BodiesRep(c, p) && BodiesSame(c, c', p)
    requires ListsRep(c', p.(free := [x] + p.free))
    ensures var p' := Apply(p, Publish(x));
            PoolOk(p') && PoolRep(c', p')
  {
    PublishKeeps(p, x);
    BodiesFrame(c, c', p);
  }

  lemma FetchedFacts(p: Pool, x: nat)
    requires PoolOk(p) && x in p.places && p.places[x].Fetched?
    ensures x != p.cache.base && x > 0 && BlockOk(NewBlock(x, p.bs, p.esize))
    ensures !IsFull(NewBlock(x, p.bs, p.esize)) && AllocIndex(NewBlock(x, p.bs, p.esize)) == 0
  {
    CacheNotBlock(p);
    assert Clear(p, x);
    NewBlockOk(x, p.bs, p.esize);
  }

  lemma PrepareFields(p: Pool, x: nat)
    requires PoolOk(p) && Enabled(p, Prepare(x))
    ensures var p' := Apply(p, Prepare(x));
            && p'.out == p.out && p'.ends == p.ends && SameFrame(p, p') && x in p'.places && p'.places[x].Prepared?
            && Slot(p'.places[x].b, 0) == Slot(NewBlock(x, p.bs, p.esize), 0)
  {
  }

  lemma PrepareDone(c: Cells, c': Cells, p: Pool, x: nat)
    requires PoolOk(p) && PoolRep(c, p) && Enabled(p, Prepare(x)) && OnlyIn(c, c', x + NODE, x + HEAD)
    requires Rep(c', AllocBlock(NewBlock(x, p.bs, p.esize)))
    ensures var p' := Apply(p, Prepare(x));
            PoolOk(p') && PoolRep(c', p')
  {
    var p' := Apply(p, Prepare(x));
    FetchedFacts(p, x);
    PrepareKeeps(p, x);
    BlockChanged(c, c', p, p', x);
  }

  /** The pool with the element back in its block, before the block is moved. */
  function Midway(p: Pool, e: Elem): Pool
    requires e.block in p.places && p.places[e.block].Attached?
  {
    p.(places := p.places[e.block := Attached(FreeBlock(p.places[e.block].b, e.i))])
  }

  /** An element of a pool block and its block, as MemoryFree needs them. */
  lemma OutFacts(p: Pool, e: Elem)
    requires PoolOk(p) && e in p.out && e.block != p.cache.base
    ensures e.block in p.places && p.places[e.block].Attached? && (e.block in p.free || e.block in p.full)
    ensures var b := p.places[e.block].b;
            BlockOk(b) && b.base == e.block && b.size == p.bs && e.i in b.used &&
            e.block <= Slot(b, e.i) < e.block + p.bs
  {
    FreedBlock(p, e);
    SlotPlace(p.places[e.block].b, e.i);
  }

  lemma MidDone(c: Cells, c': Cells, p: Pool, e: Elem)
    requires PoolOk(p) && PoolRep(c, p) && e in p.out && e.block != p.cache.base
    requires e.block in p.places && p.places[e.block].Attached?
    requires OnlyIn(c, c', e.block + NODE, e.block + p.bs) && Rep(c', FreeBlock(p.places[e.block].b, e.i))
    ensures var mid := Midway(p, e);
            LayoutOk(mid) && PoolRep(c', mid)
  {
    var mid := Midway(p, e);
    KeepsLayout(p, mid);
    BlockChanged(c, c', p, mid, e.block);
  }

  lemma RemoveDone(c: Cells, c': Cells, p: Pool, mid: Pool, e: Elem)
    requires PoolOk(p) && e in p.out && e.block != p.cache.base && IsLive(p, e.block)
    requires mid == Midway(p, e)
    requires FreeResult(mid.places[e.block].b) == 1 && BodiesRep(c, mid) && BodiesSame(c, c', mid)
    requires ListsRep(c', mid.(free := RemoveOne(p.free, e.block), full := RemoveOne(p.full, e.block)))
    ensures var p' := DoFree(p, e);
            && PoolOk(p') && PoolRep(c', p') && p'.places[e.block].Returning?
            && |p'.out| == |p.out| - 1 && p'.ends == p.ends - {EndOf(e.block, p.bs)} && SameFrame(p, p')
  {
    var p' := DoFree(p, e);
    FreeChanges(p, e);
    assert p'.places == mid.places[e.block := Returning];
    assert PoolOk(p') by { FreeKeeps(p, e); }
    assert BodiesRep(c', p') by { Taken(c, c', mid, p', e.block); }
  }

  /** An element whose address falls into the cache block's range belongs to the cache block. */
  lemma InCacheRange(p: Pool, e: Elem)
    requires PoolOk(p) && e in p.out && IsLive(p, e.block)
    requires p.cache.base <= Address(p, e) < p.cache.base + p.cache.size
    ensures e.block == p.cache.base
  {
    ElementInside(p, e);
    OutHasBlock(p, e);
    assert e.block in p.places ==> Clear(p, e.block);
  }

  lemma KeepsLayout(p: Pool, p': Pool)
    requires PoolOk(p) && p' == p.(places := p'.places) && p'.places.Keys == p.places.Keys
    ensures LayoutOk(p')
  {
    SamePlaces(p, p');
  }

  /** Bodies after the block has changed lists. */
  lemma Moved(c: Cells, c1: Cells, c2: Cells, mid: Pool, q: Pool, p': Pool)
    requires LayoutOk(mid) && BodiesRep(c, mid) && BodiesSame(c, c1, mid) && BodiesSame(c1, c2, q)
    requires q == mid.(free := q.free, full := q.full) && PoolOk(p')
    requires p'.cache == mid.cache && p'.places == mid.places && p'.bs == mid.bs
    ensures BodiesRep(c2, p')
  {
    BodiesThrough(c, c1, c2, mid, q);
    forall x, a: nat | (x == p'.cache.base || x in p'.places) && InBody(p', a, x)
      ensures Load(c2, a) == Load(c, a)
    {
      assert InBody(mid, a, x);
    }
    BodiesFrame(c, c2, p');
  }

  lemma Taken(c: Cells, c': Cells, mid: Pool, p': Pool, x: nat)
    requires BodiesRep(c, mid) && BodiesSame(c, c', mid) && PoolOk(p') && x in mid.places
    requires p'.cache == mid.cache && p'.places == mid.places[x := Returning] && p'.bs == mid.bs
    ensures BodiesRep(c', p')
  {
    assert BodiesRep(c, p');
    forall y, a: nat | (y == p'.cache.base || y in p'.places) && InBody(p', a, y)
      ensures Load(c', a) == Load(c, a)
    {
      assert InBody(mid, a, y);
    }
    BodiesFrame(c, c', p');
  }

  /** std::set::upper_bound, given that there is one. */
  method UpperBound(ends: set<nat>, a: nat, ghost some: nat) returns (e: nat)
    requires some in ends && a < some
    ensures IsUpperBound(ends, a, e)
  {
    var rest, found := ends, false;
    e := 0;
    while rest != {}
      invariant rest <= ends
      invariant found ==> e in ends && a < e
      invariant forall x :: x in ends && x !in rest && a < x ==> found && e <= x
      decreases rest
    {
      var x :| x in rest;
      if a < x && (!found || x < e) {
        e, found := x, true;
      }
      rest := rest - {x};
    }
  }

  lemma HeadRemoved(s: seq<nat>)
    requires s != []
    ensures RemoveOne(s, s[0]) == s[1..]
  {
  }

  lemma {:induction false} NotThere(s: seq<nat>, x: nat)
    requires x !in s
    ensures RemoveOne(s, x) == s
  {
    if s == [] {
    } else {
      NotThere(s[1..], x);
    }
  }

  /** The blocks a BlockPool has cut from its buffer are ones a MemoryPool can start with, if cache
      block and list heads lie elsewhere. */
  lemma CarveReady(buf: nat, bs: nat, n: nat, hi: nat, esize: nat, freeList: nat, fullList: nat, cache: Block)
    requires bs > 0 && hi == buf + CacheBytes(bs, n)
    requires Placed(buf, CacheBytes(bs, n), freeList, fullList, cache.base, cache.size)
    ensures var blocks := Carve(buf, bs, n);
            && Distinct(blocks) && (forall x :: x in blocks ==> buf <= x < hi)
            && Spread(StartPool(bs, esize, freeList, fullList, buf, hi, blocks, cache))
  {
    CarveApart(buf, bs, n);
    assert Times(n, bs) == CacheBytes(bs, n) by { TimesIs(n, bs); }
    CarveClear(StartPool(bs, esize, freeList, fullList, buf, hi, Carve(buf, bs, n), cache), buf, CacheBytes(bs, n));
  }

  lemma CarveClear(p: Pool, buf: nat, size: nat)
    requires buf > 0 && p.bs > 0
    requires Apart(buf, size, p.cache.base, p.cache.size)
    requires Apart(buf, size, p.freeList, NODE) && Apart(buf, size, p.fullList, NODE)
    requires forall x :: x in p.places ==> buf <= x && x + p.bs <= buf + size
    ensures forall x :: x in p.places ==> Clear(p, x)
  {
  }

  lemma CacheNumber(n: nat, e: nat)
    requires e > 0
    ensures (HeadAnd(n, e) - HEAD) / e == n
  {
    Bits.DivModUnique(n * e, e, n, 0);
  }
}
