/** One block of elements (src/memory_block.cpp): a 40-byte head, a region that is handed out from
    the front, and a chain threaded through the elements that came back. */
module MemoryBlock {
  import opened RawMemory

  const HEAD := 40            // sizeof(MemoryBlockHead): the list node takes the first 16 bytes
  const BLOCK_SIZE := 16
  const ELEMENT_SIZE := 20
  const MAX_NUM := 24
  const USED_CNT := 26
  const NEXT_OFFSET := 28
  const NEXT_PTR := 32

  /** What a block is about. Elements go by number; bump of them have been handed out at some time,
      those in used are out now, the others are on the chain, front first. */
  datatype Block = Block(
    base: nat, size: nat, esize: nat, first: nat, max: nat,
    bump: nat, chain: seq<nat>, used: set<nat>)

  function Times(n: nat, e: nat): nat {
    if n == 0 then 0 else Times(n - 1, e) + e
  }

  lemma {:induction false} TimesIs(n: nat, e: nat)
    ensures Times(n, e) == n * e
  {
    if n == 0 {
    } else {
      TimesIs(n - 1, e);
    }
  }

  lemma {:induction false} TimesStep(i: nat, j: nat, e: nat)
    requires i < j
    ensures Times(i, e) + e <= Times(j, e)
  {
    if i + 1 == j {
    } else {
      TimesStep(i, j - 1, e);
    }
  }

  /** The address of element i of size e, the first one being at o. */
  function Addr(o: nat, e: nat, i: nat): nat {
    o + Times(i, e)
  }

  function Slot(b: Block, i: nat): nat {
    Addr(b.base + b.first, b.esize, i)
  }

  predicate Shape(b: Block) {
    b.base > 0 && b.esize >= 8 && b.first >= HEAD && b.first + Times(b.max, b.esize) == b.size
  }

  predicate Distinct(s: seq<nat>) {
    forall i, j :: 0 <= i < j < |s| ==> s[i] != s[j]
  }

  /** Used, chained and untouched elements together make up the block. */
  ghost predicate BlockOk(b: Block) {
    && Shape(b) && b.bump <= b.max
    && (forall i :: i in b.used ==> i < b.bump)
    && (forall k :: 0 <= k < |b.chain| ==> b.chain[k] < b.bump && b.chain[k] !in b.used)
    && Distinct(b.chain)
    && |b.used| + |b.chain| == b.bump
  }

  predicate IsFull(b: Block) {
    b.chain == [] && b.bump == b.max
  }

  /** Conservation, and that a block has no room exactly when all its elements are out. */
  lemma Conservation(b: Block)
    requires BlockOk(b)
    ensures |b.used| + |b.chain| + (b.max - b.bump) == b.max
    ensures IsFull(b) <==> |b.used| == b.max
  {
  }

  /** Elements lie behind the head and inside the block, and do not overlap. */
  lemma SlotPlace(b: Block, i: nat)
    requires Shape(b) && i < b.max
    ensures b.base + HEAD <= Slot(b, i) && Slot(b, i) + b.esize <= b.base + b.size
  {
    TimesStep(i, b.max, b.esize);
  }

  lemma SlotsApart(b: Block, i: nat, j: nat)
    requires Shape(b) && i != j
    ensures Apart(Slot(b, i), b.esize, Slot(b, j), b.esize)
  {
    if i < j { TimesStep(i, j, b.esize); } else { TimesStep(j, i, b.esize); }
  }

  /** What the link to entry k of a chain holds. */
  function Link(o: nat, e: nat, chain: seq<nat>, k: nat): nat {
    if k < |chain| then Addr(o, e, chain[k]) else NULL
  }

  predicate HeadRep(c: Cells, b: Block) {
    && Load(c, b.base + BLOCK_SIZE) == b.size
    && Load(c, b.base + ELEMENT_SIZE) == b.esize
    && Load(c, b.base + MAX_NUM) == b.max
    && Load(c, b.base + USED_CNT) == |b.used|
    && Load(c, b.base + NEXT_OFFSET) == b.first + Times(b.bump, b.esize)
    && Load(c, b.base + NEXT_PTR) == Link(b.base + b.first, b.esize, b.chain, 0)
  }

  /** The chained elements' first words link them up. */
  ghost predicate ChainRep(c: Cells, o: nat, e: nat, chain: seq<nat>) {
    forall k: nat :: k < |chain| ==> LinkOk(c, o, e, chain, k)
  }

  predicate LinkOk(c: Cells, o: nat, e: nat, chain: seq<nat>, k: nat)
    requires k < |chain|
  {
    Load(c, Addr(o, e, chain[k])) == Link(o, e, chain, k + 1)
  }

  /** Memory holds this block. */
  ghost predicate Rep(c: Cells, b: Block) {
    HeadRep(c, b) && ChainRep(c, b.base + b.first, b.esize, b.chain)
  }

  /** The block survives any change outside its head and its chained elements' first words. */
  lemma RepFrame(c: Cells, c': Cells, b: Block)
    requires Rep(c, b)
    requires forall a: nat :: b.base + NODE <= a < b.base + HEAD ==> Load(c', a) == Load(c, a)
    requires forall k: nat :: k < |b.chain| ==> Load(c', Slot(b, b.chain[k])) == Load(c, Slot(b, b.chain[k]))
    ensures Rep(c', b)
  {
    var o := b.base + b.first;
    forall k: nat | k < |b.chain|
      ensures LinkOk(c', o, b.esize, b.chain, k)
    {
      assert LinkOk(c, o, b.esize, b.chain, k);
      assert Load(c', Slot(b, b.chain[k])) == Load(c, Slot(b, b.chain[k]));
    }
  }

  /** In particular any change outside the block, or to its list node. */
  lemma RepOutside(c: Cells, c': Cells, b: Block)
    requires BlockOk(b) && Rep(c, b)
    requires forall a: nat :: b.base + NODE <= a < b.base + b.size ==> Load(c', a) == Load(c, a)
    ensures Rep(c', b)
  {
    forall k: nat | k < |b.chain|
      ensures Load(c', Slot(b, b.chain[k])) == Load(c, Slot(b, b.chain[k]))
    {
      SlotPlace(b, b.chain[k]);
    }
    assert b.first <= b.size;
    RepFrame(c, c', b);
  }

  /** A write into an element that is out changes nothing the block knows. */
  lemma ClientWriteKeeps(c: Cells, b: Block, i: nat, a: nat, v: nat)
    requires BlockOk(b) && Rep(c, b) && i in b.used
    requires Slot(b, i) <= a < Slot(b, i) + b.esize
    ensures Rep(c[a := v], b)
    ensures b.base + HEAD <= a < b.base + b.size
  {
    SlotPlace(b, i);
    forall k: nat | k < |b.chain|
      ensures Slot(b, b.chain[k]) != a
    {
      SlotsApart(b, i, b.chain[k]);
    }
    RepFrame(c, c[a := v], b);
  }

  // -------------------------------------------------------- what happens

  function NewBlock(base: nat, size: nat, esize: nat): Block
    requires esize > 0 && size >= HEAD
  {
    var max := (size - HEAD) / esize;
    QuotientFits(size - HEAD, esize);
    Block(base, size, esize, size - max * esize, max, 0, [], {})
  }

  lemma QuotientFits(x: nat, e: nat)
    requires e > 0
    ensures 0 <= x / e * e <= x
  {
  }

  lemma NewBlockOk(base: nat, size: nat, esize: nat)
    requires base > 0 && esize >= 8 && size >= HEAD
    ensures BlockOk(NewBlock(base, size, esize))
    ensures HEAD + Times(NewBlock(base, size, esize).max + 1, esize) > size
  {
    TimesIs((size - HEAD) / esize, esize);
    QuotientFits(size - HEAD, esize);
  }

  /** The element handed out next. */
  function AllocIndex(b: Block): nat {
    if b.chain != [] then b.chain[0] else b.bump
  }

  function AllocBlock(b: Block): Block {
    if b.chain != [] then b.(chain := b.chain[1..], used := b.used + {b.chain[0]})
    else if b.bump < b.max then b.(bump := b.bump + 1, used := b.used + {b.bump})
    else b
  }

  function FreeBlock(b: Block, i: nat): Block {
    b.(chain := [i] + b.chain, used := b.used - {i})
  }

  lemma AllocOk(b: Block)
    requires BlockOk(b)
    ensures BlockOk(AllocBlock(b))
    ensures !IsFull(b) ==> AllocIndex(b) !in b.used && AllocIndex(b) < b.max
    ensures AllocBlock(b).used == if IsFull(b) then b.used else b.used + {AllocIndex(b)}
  {
  }

  lemma FreeOk(b: Block, i: nat)
    requires BlockOk(b) && i in b.used
    ensures BlockOk(FreeBlock(b, i)) && !IsFull(FreeBlock(b, i))
  {
  }

  /** The element freed last is handed out first, and nothing else has changed then; without freed
      elements they go out in the order of their addresses. */
  lemma FreeThenAlloc(b: Block, i: nat)
    requires BlockOk(b)
    ensures i in b.used ==> AllocIndex(FreeBlock(b, i)) == i && AllocBlock(FreeBlock(b, i)) == b
    ensures b.chain == [] ==> AllocIndex(b) == |b.used|
  {
    if i in b.used {
      assert ([i] + b.chain)[1..] == b.chain;
      assert b.used - {i} + {i} == b.used;
    }
  }

  // --------------------------------------------------------------- the code

  method MemoryBlockInit(m: Memory, block: nat, size: nat, esize: nat)
    requires esize > 0 && size >= HEAD && (size - HEAD) / esize <= 65535
    modifies m
    ensures Rep(m.cells, NewBlock(block, size, esize))
    ensures OnlyIn(old(m.cells), m.cells, block + NODE, block + HEAD)
  {
    var max := (size - HEAD) / esize;
    QuotientFits(size - HEAD, esize);
    m.Store(block + BLOCK_SIZE, size);
    m.Store(block + ELEMENT_SIZE, esize);
    m.Store(block + MAX_NUM, max);
    m.Store(block + USED_CNT, 0);
    m.Store(block + NEXT_OFFSET, size - max * esize);
    m.Store(block + NEXT_PTR, NULL);
  }

  /** Takes an element from the chain, or else from the untouched region; null if there is none. */
  method MemoryAlloc(m: Memory, block: nat, ghost b: Block) returns (element: nat)
    requires block == b.base && BlockOk(b) && Rep(m.cells, b)
    modifies m
    ensures Rep(m.cells, AllocBlock(b))
    ensures element == if IsFull(b) then NULL else Slot(b, AllocIndex(b))
    ensures element == NULL <==> IsFull(b)
    ensures OnlyIn(old(m.cells), m.cells, block + NODE, block + HEAD)
  {
    element := NULL;
    if Load(m.cells, block + NEXT_PTR) != NULL {
      element := TakeChained(m, block, b);
    } else {
      ChainEmpty(m.cells, b);
      if Load(m.cells, block + NEXT_OFFSET) < Load(m.cells, block + BLOCK_SIZE) {
        element := TakeFresh(m, block, b);
      } else {
        BumpedOut(b);
      }
    }
  }

  lemma ChainEmpty(c: Cells, b: Block)
    requires BlockOk(b) && Rep(c, b)
    ensures Load(c, b.base + NEXT_PTR) == NULL <==> b.chain == []
  {
    if b.chain != [] { SlotPlace(b, b.chain[0]); }
  }

  method TakeChained(m: Memory, block: nat, ghost b: Block) returns (element: nat)
    requires block == b.base && BlockOk(b) && Rep(m.cells, b) && Load(m.cells, block + NEXT_PTR) != NULL
    modifies m
    ensures Rep(m.cells, AllocBlock(b)) && b.chain != []
    ensures element == Slot(b, AllocIndex(b)) && element != NULL
    ensures OnlyIn(old(m.cells), m.cells, block + NODE, block + HEAD)
  {
    ghost var c := m.cells;
    ChainEmpty(c, b);
    element := Load(m.cells, block + NEXT_PTR);
    var used := Load(m.cells, block + USED_CNT);
    m.Store(block + NEXT_PTR, Load(m.cells, element));
    m.Store(block + USED_CNT, used + 1);
    PopRep(c, m.cells, b);
  }

  /** Memory after the front of the chain was taken. */
  lemma PopRep(c: Cells, c': Cells, b: Block)
    requires BlockOk(b) && Rep(c, b) && b.chain != []
    requires c' == c[b.base + NEXT_PTR := Load(c, Slot(b, b.chain[0]))][b.base + USED_CNT := |b.used| + 1]
    ensures Rep(c', AllocBlock(b))
    ensures OnlyIn(c, c', b.base + NODE, b.base + HEAD)
  {
    var o := b.base + b.first;
    assert OnlyIn(c, c', b.base + NODE, b.base + HEAD);
    assert ChainRep(c', o, b.esize, b.chain[1..]) &&
           Load(c, Addr(o, b.esize, b.chain[0])) == Link(o, b.esize, b.chain[1..], 0) by {
      ElementsKept(c, c', b);
      ChainPopped(c, c', o, b.esize, b.chain);
    }
    PopHead(c, c', b);
  }

  lemma PopHead(c: Cells, c': Cells, b: Block)
    requires BlockOk(b) && HeadRep(c, b) && b.chain != []
    requires c' == c[b.base + NEXT_PTR := Link(b.base + b.first, b.esize, b.chain[1..], 0)]
                    [b.base + USED_CNT := |b.used| + 1]
    ensures HeadRep(c', AllocBlock(b))
  {
    assert |AllocBlock(b).used| == |b.used| + 1;
  }

  method TakeFresh(m: Memory, block: nat, ghost b: Block) returns (element: nat)
    requires block == b.base && BlockOk(b) && Rep(m.cells, b) && b.chain == []
    requires Load(m.cells, block + NEXT_OFFSET) < Load(m.cells, block + BLOCK_SIZE)
    modifies m
    ensures Rep(m.cells, AllocBlock(b)) && b.bump < b.max
    ensures element == Slot(b, AllocIndex(b)) && element != NULL
    ensures OnlyIn(old(m.cells), m.cells, block + NODE, block + HEAD)
  {
    assert b.bump < b.max;
    var offset := Load(m.cells, block + NEXT_OFFSET);
    element := block + offset;
    m.Store(block + NEXT_OFFSET, offset + Load(m.cells, block + ELEMENT_SIZE));
    m.Store(block + USED_CNT, Load(m.cells, block + USED_CNT) + 1);
    assert |AllocBlock(b).used| == |b.used| + 1;
  }

  lemma BumpedOut(b: Block)
    requires Shape(b) && b.bump <= b.max && b.first + Times(b.bump, b.esize) >= b.size
    ensures b.bump == b.max
  {
    if b.bump < b.max { TimesStep(b.bump, b.max, b.esize); }
  }

  lemma ChainPopped(c: Cells, c': Cells, o: nat, e: nat, chain: seq<nat>)
    requires chain != [] && ChainRep(c, o, e, chain)
    requires forall k: nat :: k < |chain| ==> Load(c', Addr(o, e, chain[k])) == Load(c, Addr(o, e, chain[k]))
    ensures ChainRep(c', o, e, chain[1..])
    ensures Load(c, Addr(o, e, chain[0])) == Link(o, e, chain[1..], 0)
  {
    var rest := chain[1..];
    forall k: nat | k < |rest|
      ensures LinkOk(c', o, e, rest, k)
    {
      assert LinkOk(c, o, e, chain, k + 1) && rest[k] == chain[k + 1];
    }
    assert LinkOk(c, o, e, chain, 0);
  }

  /** A change to the head of a block only leaves its elements alone. */
  lemma ElementsKept(c: Cells, c': Cells, b: Block)
    requires BlockOk(b) && OnlyIn(c, c', b.base + NODE, b.base + HEAD)
    ensures forall k: nat :: k < |b.chain| ==> Load(c', Slot(b, b.chain[k])) == Load(c, Slot(b, b.chain[k]))
  {
    forall k: nat | k < |b.chain|
      ensures Load(c', Slot(b, b.chain[k])) == Load(c, Slot(b, b.chain[k]))
    {
      SlotPlace(b, b.chain[k]);
    }
  }

  /** Puts an element on the chain. 1: all are back; 0: there is room again; -1 otherwise, also for an
      address outside the block, which is left alone. */
  method MemoryFree(m: Memory, block: nat, element: nat, ghost b: Block, ghost i: nat) returns (ret: int)
    requires block == b.base && BlockOk(b) && Rep(m.cells, b)
    requires block <= element < block + b.size ==> i in b.used && element == Slot(b, i)
    modifies m
    ensures var inside := block <= element < block + b.size;
            && (!inside ==> ret == -1 && m.cells == old(m.cells))
            && (inside ==> Rep(m.cells, FreeBlock(b, i)) && ret == FreeResult(FreeBlock(b, i)))
            && (inside ==> ret == if |b.used| == 1 then 1 else if IsFull(b) then 0 else -1)
    ensures OnlyIn(old(m.cells), m.cells, block + NODE, block + b.size)
  {
    if element < block || element >= block + Load(m.cells, block + BLOCK_SIZE) {
      return -1;
    }
    var used, max := Load(m.cells, block + USED_CNT), Load(m.cells, block + MAX_NUM);
    Conservation(b);
    GiveBack(m, block, element, b, i);
    if used - 1 == 0 {
      return 1;
    } else if used - 1 == max - 1 {
      return 0;
    }
    return -1;
  }

  method GiveBack(m: Memory, block: nat, element: nat, ghost b: Block, ghost i: nat)
    requires block == b.base && BlockOk(b) && Rep(m.cells, b) && i in b.used && element == Slot(b, i)
    modifies m
    ensures Rep(m.cells, FreeBlock(b, i)) && |FreeBlock(b, i).used| == |b.used| - 1
    ensures OnlyIn(old(m.cells), m.cells, block + NODE, block + b.size)
  {
    ghost var c := m.cells;
    SlotPlace(b, i);
    var next, used := Load(m.cells, block + NEXT_PTR), Load(m.cells, block + USED_CNT);
    m.Store(element, next);
    m.Store(block + NEXT_PTR, element);
    m.Store(block + USED_CNT, used - 1);
    FreeRep(c, m.cells, b, i);
  }

  /** Memory after an element was put on the chain. */
  lemma FreeRep(c: Cells, c': Cells, b: Block, i: nat)
    requires BlockOk(b) && Rep(c, b) && i in b.used
    requires c' == c[Slot(b, i) := Load(c, b.base + NEXT_PTR)]
                    [b.base + NEXT_PTR := Slot(b, i)][b.base + USED_CNT := |b.used| - 1]
    ensures Rep(c', FreeBlock(b, i))
    ensures OnlyIn(c, c', b.base + NODE, b.base + b.size)
  {
    SlotPlace(b, i);
    assert HeadRep(c', FreeBlock(b, i));
    assert ChainRep(c', b.base + b.first, b.esize, [i] + b.chain) by {
      OthersKept(c, c', b, i);
      ChainPushed(c, c', b.base + b.first, b.esize, b.chain, i);
    }
  }

  function FreeResult(b: Block): int {
    if |b.used| == 0 then 1 else if |b.used| == b.max - 1 then 0 else -1
  }

  lemma FreeResultIs(b: Block, i: nat)
    requires BlockOk(b) && i in b.used
    ensures FreeResult(FreeBlock(b, i)) == if |b.used| == 1 then 1 else if IsFull(b) then 0 else -1
  {
    Conservation(b);
    assert |b.used - {i}| == |b.used| - 1;
  }

  lemma ChainPushed(c: Cells, c': Cells, o: nat, e: nat, chain: seq<nat>, i: nat)
    requires ChainRep(c, o, e, chain) && Load(c', Addr(o, e, i)) == Link(o, e, chain, 0)
    requires forall k: nat :: k < |chain| ==> Load(c', Addr(o, e, chain[k])) == Load(c, Addr(o, e, chain[k]))
    ensures ChainRep(c', o, e, [i] + chain)
  {
    var longer := [i] + chain;
    forall k: nat | k < |longer|
      ensures LinkOk(c', o, e, longer, k)
    {
      if k > 0 {
        assert LinkOk(c, o, e, chain, k - 1) && longer[k] == chain[k - 1];
      }
    }
  }

  /** Freeing element i writes to no other chained element. */
  lemma OthersKept(c: Cells, c': Cells, b: Block, i: nat)
    requires BlockOk(b) && i in b.used
    requires forall a: nat :: b.base + HEAD <= a && a != Slot(b, i) ==> Load(c', a) == Load(c, a)
    ensures forall k: nat :: k < |b.chain| ==> Load(c', Slot(b, b.chain[k])) == Load(c, Slot(b, b.chain[k]))
  {
    forall k: nat | k < |b.chain|
      ensures Load(c', Slot(b, b.chain[k])) == Load(c, Slot(b, b.chain[k]))
    {
      SlotPlace(b, b.chain[k]);
      SlotsApart(b, i, b.chain[k]);
    }
  }
}
