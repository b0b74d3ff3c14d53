/** The block cache (src/block_pool.cpp). Memory from the heap is handed in by the caller. */
module BlockPool {
  import opened RawMemory
  import opened MemoryBlock
  import PoolModel

  const BLOCK_ALIGN := 4096

  /** The bytes of the cached blocks together. */
  function CacheBytes(size: nat, n: nat): nat {
    size * n
  }

  /** n blocks of the given size, side by side. */
  function Carve(buf: nat, size: nat, n: nat): (s: seq<nat>)
    ensures |s| == n
  {
    if n == 0 then [] else Carve(buf, size, n - 1) + [buf + Times(n - 1, size)]
  }

  /** Carved blocks lie in the buffer and do not overlap. */
  lemma {:induction false} CarveApart(buf: nat, size: nat, n: nat)
    requires size > 0
    ensures var s := Carve(buf, size, n);
            && Distinct(s)
            && (forall x :: x in s ==> buf <= x && x + size <= buf + Times(n, size))
            && (forall x, y :: x in s && y in s && x != y ==> Apart(x, size, y, size))
  {
    if n == 0 {
    } else {
      CarveApart(buf, size, n - 1);
      var t, last := Carve(buf, size, n - 1), buf + Times(n - 1, size);
      assert last !in t;
      PoolModel.DistinctSnoc(t, last);
      assert forall x :: x in t + [last] <==> x in t || x == last;
    }
  }

  class BlockPool {
    var m_block_size: nat
    var m_cache_start: nat
    var m_cache_end: nat
    var m_free_blocks: seq<nat>

    constructor ()
      ensures m_block_size == 0 && m_cache_start == NULL && m_cache_end == NULL && m_free_blocks == []
    {
      m_block_size, m_cache_start, m_cache_end, m_free_blocks := 0, NULL, NULL, [];
    }

    /** Cuts buf, as the heap returned it, into blocks; fails on a bad size, a second
        initialisation, or no memory. */
    method Init(block_size: nat, cache_num: nat, buf: nat) returns (ok: bool)
      modifies this
      ensures ok == (&& block_size >= BLOCK_ALIGN && block_size % BLOCK_ALIGN == 0
                     && old(m_cache_start) == NULL && buf != NULL)
      ensures ok ==>
                && m_block_size == block_size
                && m_cache_start == buf && m_cache_end == buf + CacheBytes(block_size, cache_num)
                && m_free_blocks == old(m_free_blocks) + Carve(buf, block_size, cache_num)
      ensures !ok ==>
                && m_free_blocks == old(m_free_blocks)
                && m_cache_start == old(m_cache_start) && m_cache_end == old(m_cache_end)
    {
      if block_size < BLOCK_ALIGN || block_size % BLOCK_ALIGN != 0 {
        return false;
      }
      if m_cache_start != NULL {
        return false;
      }
      m_block_size := block_size;
      var size := CacheBytes(m_block_size, cache_num);
      if buf == NULL {
        return false;
      }
      m_cache_start := buf;
      m_cache_end := buf + size;
      var at := buf;
      for i := 0 to cache_num
        invariant at == buf + Times(i, block_size)
        invariant m_free_blocks == old(m_free_blocks) + Carve(buf, block_size, i)
        invariant m_block_size == block_size && m_cache_start == buf && m_cache_end == buf + size
      {
        m_free_blocks := m_free_blocks + [at];
        at := at + m_block_size;
      }
      return true;
    }

    /** The first cached block, or else what the heap gives. */
    method Alloc(heap: nat) returns (buf: nat)
      modifies this
      ensures m_block_size == old(m_block_size)
      ensures m_cache_start == old(m_cache_start) && m_cache_end == old(m_cache_end)
      ensures if old(m_free_blocks) == [] then buf == heap && m_free_blocks == []
              else buf == old(m_free_blocks)[0] && m_free_blocks == old(m_free_blocks)[1..]
    {
      if m_free_blocks != [] {
        buf := m_free_blocks[0];
        m_free_blocks := m_free_blocks[1..];
        return;
      }
      return heap;
    }

    /** Keeps a block of the cache; any other one goes to the heap. */
    method Free(block: nat) returns (toHeap: bool)
      modifies this
      ensures m_block_size == old(m_block_size)
      ensures m_cache_start == old(m_cache_start) && m_cache_end == old(m_cache_end)
      ensures toHeap == !(m_cache_start <= block < m_cache_end)
      ensures m_free_blocks == if toHeap then old(m_free_blocks) else [block] + old(m_free_blocks)
    {
      if block >= m_cache_start && block < m_cache_end {
        m_free_blocks := [block] + m_free_blocks;
        return false;
      }
      return true;
    }
  }
}
