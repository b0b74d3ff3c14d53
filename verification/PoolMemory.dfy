/** How a pool lies in raw memory: block heads, free chains and the two intrusive lists, and which
    writes leave which of them alone. */
module PoolMemory {
  import opened RawMemory
  import opened Collections
  import opened MemoryBlock
  import C = CircularList
  import opened PoolModel

  /** Memory holds the cache block and every block in use. */
  ghost predicate BodiesRep(c: Cells, p: Pool) {
    && Rep(c, p.cache)
    && forall x :: x in p.places && HasBlock(p.places[x]) ==> Rep(c, p.places[x].b)
  }

  /** Both lists are well-formed circles. */
  ghost predicate ListsRep(c: Cells, p: Pool) {
    C.Circle(c, p.freeList, p.free) && C.Circle(c, p.fullList, p.full)
  }

  ghost predicate PoolRep(c: Cells, p: Pool) {
    BodiesRep(c, p) && ListsRep(c, p)
  }

  predicate InBody(p: Pool, a: nat, x: nat) {
    if x == p.cache.base then x + NODE <= a < x + p.cache.size else x + NODE <= a < x + p.bs
  }

  /** Nothing changed in the cache block or in any pool block, list nodes aside. */
  ghost predicate BodiesSame(c: Cells, c': Cells, p: Pool) {
    forall x, a: nat :: (x == p.cache.base || x in p.places) && InBody(p, a, x) ==> Load(c', a) == Load(c, a)
  }

  predicate IsNode(p: Pool, y: nat) {
    y == p.freeList || y == p.fullList || y in p.places
  }

  /** No list node changed. */
  ghost predicate NodesSame(c: Cells, c': Cells, p: Pool) {
    forall y: nat :: IsNode(p, y) ==> C.Next(c', y) == C.Next(c, y) && C.Prev(c', y) == C.Prev(c, y)
  }

  /** The part of the pool's order that the lists rest on; it also holds between the two halves of a
      move from one list to the other. */
  ghost predicate LayoutOk(p: Pool) {
    && p.bs >= HEAD && Spread(p) && BlockOk(p.cache)
    && Distinct(p.free) && Distinct(p.full)
    && (forall x :: x in p.free ==> x in p.places && x !in p.full)
    && (forall x :: x in p.full ==> x in p.places)
  }

  lemma BodyFrame(c: Cells, c': Cells, p: Pool, x: nat, b: Block)
    requires BodiesSame(c, c', p) && Rep(c, b) && BlockOk(b) && b.base == x
    requires x == p.cache.base || x in p.places
    requires b.size == if x == p.cache.base then p.cache.size else p.bs
    ensures Rep(c', b)
  {
    forall a: nat | b.base + NODE <= a < b.base + b.size
      ensures Load(c', a) == Load(c, a)
    {
      assert InBody(p, a, x);
    }
    RepOutside(c, c', b);
  }

  lemma BodiesFrame(c: Cells, c': Cells, p: Pool)
    requires PoolOk(p) && BodiesRep(c, p) && BodiesSame(c, c', p)
    ensures BodiesRep(c', p)
  {
    CacheNotBlock(p);
    BodyFrame(c, c', p, p.cache.base, p.cache);
    forall x | x in p.places && HasBlock(p.places[x])
      ensures Rep(c', p.places[x].b)
    {
      assert PlaceOk(p, x, p.places[x]);
      BodyFrame(c, c', p, x, p.places[x].b);
    }
  }

  lemma SpreadPair(p: Pool, x: nat, y: nat)
    requires Spread(p) && x in p.places && y in p.places && x != y
    ensures Apart(x, p.bs, y, p.bs)
  {
  }

  /** A body and a list node never meet. */
  lemma NodeOutsideBodies(p: Pool, y: nat, a: nat, x: nat)
    requires LayoutOk(p) && IsNode(p, y) && y <= a < y + NODE && (x == p.cache.base || x in p.places)
    ensures !InBody(p, a, x)
  {
    CacheNotBlock(p);
    if x in p.places { assert Clear(p, x); }
    if y in p.places { assert Clear(p, y); }
    if x in p.places && y in p.places && x != y { SpreadPair(p, x, y); }
  }

  /** A write to a list node leaves all bodies alone. */
  lemma NodeStore(c0: Cells, c: Cells, p: Pool, y: nat, a: nat, v: nat)
    requires LayoutOk(p) && IsNode(p, y) && y <= a < y + NODE && BodiesSame(c0, c, p)
    ensures BodiesSame(c0, c[a := v], p)
  {
    forall x, d: nat | (x == p.cache.base || x in p.places) && InBody(p, d, x)
      ensures Load(c[a := v], d) == Load(c0, d)
    {
      NodeOutsideBodies(p, y, a, x);
      assert Load(c, d) == Load(c0, d);
    }
  }

  lemma InsertBodies(c: Cells, p: Pool, node: nat, prev: nat, next: nat)
    requires LayoutOk(p) && IsNode(p, node) && IsNode(p, prev) && IsNode(p, next)
    ensures BodiesSame(c, C.InsertCells(c, node, prev, next), p)
  {
    var c1 := c[next + C.PREV := node];
    var c2 := c1[node := next];
    var c3 := c2[node + C.PREV := prev];
    NodeStore(c, c, p, next, next + C.PREV, node);
    NodeStore(c, c1, p, node, node, next);
    NodeStore(c, c2, p, node, node + C.PREV, prev);
    NodeStore(c, c3, p, prev, prev, node);
  }

  lemma DeleteBodies(c: Cells, p: Pool, prev: nat, next: nat)
    requires LayoutOk(p) && IsNode(p, prev) && IsNode(p, next)
    ensures BodiesSame(c, C.DeleteCells(c, prev, next), p)
  {
    var c1 := c[next + C.PREV := prev];
    NodeStore(c, c, p, next, next + C.PREV, prev);
    NodeStore(c, c1, p, prev, prev, next);
  }

  lemma BodiesThrough(c0: Cells, c1: Cells, c2: Cells, p: Pool, q: Pool)
    requires BodiesSame(c0, c1, p) && BodiesSame(c1, c2, q) && q == p.(free := q.free, full := q.full)
    ensures BodiesSame(c0, c2, p)
  {
    forall x, a: nat | (x == p.cache.base || x in p.places) && InBody(p, a, x)
      ensures Load(c2, a) == Load(c0, a)
    {
      assert InBody(q, a, x);
      assert Load(c1, a) == Load(c0, a);
    }
  }

  // ---------------------------------------------------------------- lists

  lemma RingNode(p: Pool, list: nat, s: seq<nat>, i: nat)
    requires LayoutOk(p) && i <= |s| + 1
    requires (list == p.freeList && s == p.free) || (list == p.fullList && s == p.full)
    ensures IsNode(p, C.Ring(list, s)[i])
  {
    if 1 <= i <= |s| {
      assert s[i - 1] in s;
    }
  }

  /** Nodes that are not the same node do not overlap. */
  lemma NodesApart(p: Pool, x: nat, y: nat)
    requires LayoutOk(p) && IsNode(p, x) && IsNode(p, y) && x != y
    ensures Apart(x, NODE, y, NODE)
  {
    if x in p.places { assert Clear(p, x); }
    if y in p.places { assert Clear(p, y); }
    if x in p.places && y in p.places { SpreadPair(p, x, y); }
  }

  lemma ListHeadsNoBlocks(p: Pool)
    requires LayoutOk(p)
    ensures p.freeList !in p.places && p.fullList !in p.places && p.freeList != p.fullList
  {
    assert p.freeList in p.places ==> Clear(p, p.freeList);
    assert p.fullList in p.places ==> Clear(p, p.fullList);
  }

  /** The same pool with the two lists in each other's place: what holds for one list holds for both. */
  function Flip(p: Pool): Pool {
    p.(freeList := p.fullList, fullList := p.freeList, free := p.full, full := p.free)
  }

  lemma FlipLayout(p: Pool)
    requires LayoutOk(p)
    ensures LayoutOk(Flip(p))
  {
    forall x | x in p.places
      ensures Clear(Flip(p), x)
    {
      assert Clear(p, x);
    }
  }

  lemma FreeSeparate(p: Pool)
    requires LayoutOk(p)
    ensures C.Separate(p.freeList, p.free)
  {
    var r := C.Ring(p.freeList, p.free);
    ListHeadsNoBlocks(p);
    forall i: nat, j: nat | i < j <= |p.free|
      ensures Apart(r[i], NODE, r[j], NODE)
    {
      RingNode(p, p.freeList, p.free, i);
      RingNode(p, p.freeList, p.free, j);
      assert p.free[j - 1] in p.free;
      NodesApart(p, r[i], r[j]);
    }
  }

  /** A node that is on neither list head's circle is new to it. */
  lemma NewToFree(p: Pool, y: nat)
    requires LayoutOk(p) && IsNode(p, y) && y != p.freeList && y !in p.free
    ensures C.NewNode(p.freeList, p.free, y)
  {
    var r := C.Ring(p.freeList, p.free);
    forall i: nat | i <= |p.free|
      ensures Apart(r[i], NODE, y, NODE)
    {
      RingNode(p, p.freeList, p.free, i);
      assert i > 0 ==> p.free[i - 1] in p.free;
      NodesApart(p, r[i], y);
    }
  }

  /** A circle is untouched by an insertion among nodes that are not on it. */
  lemma OtherInsert(c: Cells, list: nat, s: seq<nat>, node: nat, prev: nat, next: nat)
    requires C.Circle(c, list, s)
    requires C.NewNode(list, s, node) && C.NewNode(list, s, prev) && C.NewNode(list, s, next)
    ensures C.Circle(C.InsertCells(c, node, prev, next), list, s)
  {
    var c', r := C.InsertCells(c, node, prev, next), C.Ring(list, s);
    forall i: nat | i <= |s|
      ensures C.Next(c', r[i]) == C.Next(c, r[i]) && C.Prev(c', r[i]) == C.Prev(c, r[i])
    {
      assert Apart(r[i], NODE, node, NODE) && Apart(r[i], NODE, prev, NODE) && Apart(r[i], NODE, next, NODE);
    }
    C.CircleFrame(c, c', list, s);
  }

  lemma OtherDelete(c: Cells, list: nat, s: seq<nat>, prev: nat, next: nat)
    requires C.Circle(c, list, s) && C.NewNode(list, s, prev) && C.NewNode(list, s, next)
    ensures C.Circle(C.DeleteCells(c, prev, next), list, s)
  {
    var c', r := C.DeleteCells(c, prev, next), C.Ring(list, s);
    forall i: nat | i <= |s|
      ensures C.Next(c', r[i]) == C.Next(c, r[i]) && C.Prev(c', r[i]) == C.Prev(c, r[i])
    {
      assert Apart(r[i], NODE, prev, NODE) && Apart(r[i], NODE, next, NODE);
    }
    C.CircleFrame(c, c', list, s);
  }

  /** A ring node of one list is new to the other. */
  lemma FreeRingNewToFull(p: Pool, i: nat)
    requires LayoutOk(p) && i <= |p.free| + 1
    ensures C.NewNode(p.fullList, p.full, C.Ring(p.freeList, p.free)[i])
  {
    RingNode(p, p.freeList, p.free, i);
    ListHeadsNoBlocks(p);
    assert 1 <= i <= |p.free| ==> p.free[i - 1] in p.free;
    assert p.freeList in p.full ==> p.freeList in p.places;
    FlipLayout(p);
    NewToFree(Flip(p), C.Ring(p.freeList, p.free)[i]);
  }

  lemma ListsFrame(c: Cells, c': Cells, p: Pool)
    requires LayoutOk(p) && ListsRep(c, p) && NodesSame(c, c', p)
    ensures ListsRep(c', p)
  {
    forall i: nat | i <= |p.free|
      ensures var y := C.Ring(p.freeList, p.free)[i]; C.Next(c', y) == C.Next(c, y) && C.Prev(c', y) == C.Prev(c, y)
    {
      RingNode(p, p.freeList, p.free, i);
    }
    C.CircleFrame(c, c', p.freeList, p.free);
    forall i: nat | i <= |p.full|
      ensures var y := C.Ring(p.fullList, p.full)[i]; C.Next(c', y) == C.Next(c, y) && C.Prev(c', y) == C.Prev(c, y)
    {
      RingNode(p, p.fullList, p.full, i);
    }
    C.CircleFrame(c, c', p.fullList, p.full);
  }

  // ------------------------------------------------------ list operations

  /** Taking a block off the free list. */
  lemma DetachFree(c: Cells, p: Pool, i: nat)
    requires LayoutOk(p) && ListsRep(c, p) && i < |p.free|
    ensures var r := C.Ring(p.freeList, p.free);
            var c', p' := C.DeleteCells(c, r[i], r[i + 2]), p.(free := RemoveAt(p.free, i));
            LayoutOk(p') && ListsRep(c', p') && BodiesSame(c, c', p)
    ensures C.Separate(p.freeList, p.free)
  {
    var r := C.Ring(p.freeList, p.free);
    FreeSeparate(p);
    C.DeleteCircle(c, p.freeList, p.free, i);
    FreeRingNewToFull(p, i);
    FreeRingNewToFull(p, i + 2);
    OtherDelete(c, p.fullList, p.full, r[i], r[i + 2]);
    RingNode(p, p.freeList, p.free, i);
    RingNode(p, p.freeList, p.free, i + 2);
    DeleteBodies(c, p, r[i], r[i + 2]);
    RemoveAtOk(p.free, i);
    KeepsSpread(p, p.(free := RemoveAt(p.free, i)));
  }

  lemma DetachFull(c: Cells, p: Pool, i: nat)
    requires LayoutOk(p) && ListsRep(c, p) && i < |p.full|
    ensures var r := C.Ring(p.fullList, p.full);
            var c', p' := C.DeleteCells(c, r[i], r[i + 2]), p.(full := RemoveAt(p.full, i));
            LayoutOk(p') && ListsRep(c', p') && BodiesSame(c, c', p)
    ensures C.Separate(p.fullList, p.full)
  {
    var r := C.Ring(p.fullList, p.full);
    var c', p' := C.DeleteCells(c, r[i], r[i + 2]), p.(full := RemoveAt(p.full, i));
    FlipLayout(p);
    DetachFree(c, Flip(p), i);
    assert LayoutOk(p') by { FlipLayout(Flip(p')); }
    FlipBodies(c, c', p);
  }

  lemma FlipBodies(c: Cells, c': Cells, p: Pool)
    requires BodiesSame(c, c', Flip(p))
    ensures BodiesSame(c, c', p)
  {
    forall x, a: nat | (x == p.cache.base || x in p.places) && InBody(p, a, x)
      ensures Load(c', a) == Load(c, a)
    {
      assert InBody(Flip(p), a, x);
    }
  }

  lemma RemoveAtOk(s: seq<nat>, i: nat)
    requires Distinct(s) && i < |s|
    ensures Distinct(RemoveAt(s, i)) && RemoveAt(s, i) == RemoveOne(s, s[i])
    ensures forall y :: y in RemoveAt(s, i) <==> y in s && y != s[i]
  {
    RemoveOneOk(s, s[i]);
    RemoveAtIs(s, i, s[i]);
  }

  lemma {:induction false} RemoveAtIs(s: seq<nat>, i: nat, x: nat)
    requires i < |s| && s[i] == x && x !in s[..i]
    ensures RemoveOne(s, x) == s[..i] + s[i + 1..]
  {
    if i == 0 {
    } else {
      assert s[0] != x by { assert s[..i][0] == s[0]; }
      assert s[1..][..i - 1] == s[..i][1..];
      assert RemoveOne(s[1..], x) == s[1..][..i - 1] + s[1..][i..] by { RemoveAtIs(s[1..], i - 1, x); }
      assert s[..i] == [s[0]] + s[1..][..i - 1] && s[1..][i..] == s[i + 1..];
    }
  }

  lemma KeepsSpread(p: Pool, p': Pool)
    requires Spread(p) && p' == p.(free := p'.free, full := p'.full)
    ensures Spread(p')
  {
    forall x | x in p'.places
      ensures Clear(p', x)
    {
      assert Clear(p, x);
    }
  }

  /** A block that is on neither list. */
  predicate Loose(p: Pool, x: nat) {
    x in p.places && x !in p.free && x !in p.full
  }

  /** Putting a block at place i of the free list, at its head or its tail. */
  lemma AttachFree(c: Cells, p: Pool, i: nat, x: nat)
    requires LayoutOk(p) && ListsRep(c, p) && Loose(p, x) && (i == 0 || i == |p.free|)
    ensures var r := C.Ring(p.freeList, p.free);
            var c', p' := C.InsertCells(c, x, r[i], r[i + 1]), p.(free := C.InsertAt(p.free, i, x));
            LayoutOk(p') && ListsRep(c', p') && BodiesSame(c, c', p)
    ensures C.Separate(p.freeList, p.free) && C.NewNode(p.freeList, p.free, x)
  {
    var r := C.Ring(p.freeList, p.free);
    ListHeadsNoBlocks(p);
    FreeSeparate(p);
    NewToFree(p, x);
    FlipLayout(p);
    NewToFree(Flip(p), x);
    C.InsertCircle(c, p.freeList, p.free, i, x);
    FreeRingNewToFull(p, i);
    FreeRingNewToFull(p, i + 1);
    OtherInsert(c, p.fullList, p.full, x, r[i], r[i + 1]);
    RingNode(p, p.freeList, p.free, i);
    RingNode(p, p.freeList, p.free, i + 1);
    InsertBodies(c, p, x, r[i], r[i + 1]);
    InsertOk(p.free, i, x);
    KeepsSpread(p, p.(free := C.InsertAt(p.free, i, x)));
  }

  lemma AttachFull(c: Cells, p: Pool, x: nat)
    requires LayoutOk(p) && ListsRep(c, p) && Loose(p, x)
    ensures var r, i := C.Ring(p.fullList, p.full), |p.full|;
            var c', p' := C.InsertCells(c, x, r[i], r[i + 1]), p.(full := C.InsertAt(p.full, i, x));
            LayoutOk(p') && ListsRep(c', p') && BodiesSame(c, c', p)
    ensures C.Separate(p.fullList, p.full) && C.NewNode(p.fullList, p.full, x)
  {
    var r, i := C.Ring(p.fullList, p.full), |p.full|;
    var c', p' := C.InsertCells(c, x, r[i], r[i + 1]), p.(full := C.InsertAt(p.full, i, x));
    FlipLayout(p);
    AttachFree(c, Flip(p), i, x);
    assert LayoutOk(p') by { FlipLayout(Flip(p')); }
    FlipBodies(c, c', p);
  }

  lemma InsertOk(s: seq<nat>, i: nat, x: nat)
    requires Distinct(s) && x !in s && (i == 0 || i == |s|)
    ensures Distinct(C.InsertAt(s, i, x)) && forall y :: y in C.InsertAt(s, i, x) <==> y in s || y == x
    ensures C.InsertAt(s, i, x) == if i == 0 then [x] + s else s + [x]
  {
    if i == 0 { DistinctCons(x, s); } else { DistinctSnoc(s, x); }
    assert C.InsertAt(s, i, x) == if i == 0 then [x] + s else s + [x];
  }

  // --------------------------------------------------- changes in one body

  /** A change inside the body at x touches no node and no other body. */
  lemma BodyChange(c: Cells, c': Cells, p: Pool, x: nat)
    requires LayoutOk(p) && (x == p.cache.base || x in p.places)
    requires OnlyIn(c, c', x + NODE, x + (if x == p.cache.base then p.cache.size else p.bs))
    ensures NodesSame(c, c', p)
    ensures forall y, a: nat :: y != x && (y == p.cache.base || y in p.places) && InBody(p, a, y) ==>
              Load(c', a) == Load(c, a)
  {
    CacheNotBlock(p);
    forall y: nat | IsNode(p, y)
      ensures C.Next(c', y) == C.Next(c, y) && C.Prev(c', y) == C.Prev(c, y)
    {
      NodeOutsideBodies(p, y, y, x);
      NodeOutsideBodies(p, y, y + C.PREV, x);
    }
    forall y, a: nat | y != x && (y == p.cache.base || y in p.places) && InBody(p, a, y)
      ensures Load(c', a) == Load(c, a)
    {
      BodiesApart(p, x, y);
    }
  }

  lemma BodiesApart(p: Pool, x: nat, y: nat)
    requires LayoutOk(p) && x != y && (x == p.cache.base || x in p.places) && (y == p.cache.base || y in p.places)
    ensures Apart(x, if x == p.cache.base then p.cache.size else p.bs,
                  y, if y == p.cache.base then p.cache.size else p.bs)
  {
    CacheNotBlock(p);
    if x in p.places { assert Clear(p, x); }
    if y in p.places { assert Clear(p, y); }
    if x in p.places && y in p.places { SpreadPair(p, x, y); }
  }

  /** After a change inside one body, all other blocks are still there. */
  lemma OtherBodies(c: Cells, c': Cells, p: Pool, x: nat)
    requires PoolOk(p) && BodiesRep(c, p) && (x == p.cache.base || x in p.places)
    requires OnlyIn(c, c', x + NODE, x + (if x == p.cache.base then p.cache.size else p.bs))
    ensures x != p.cache.base ==> Rep(c', p.cache)
    ensures forall y :: y in p.places && y != x && HasBlock(p.places[y]) ==> Rep(c', p.places[y].b)
  {
    CacheNotBlock(p);
    BodyChange(c, c', p, x);
    if x != p.cache.base { SameBody(c, c', p, p.cache.base, p.cache); }
    forall y | y in p.places && y != x && HasBlock(p.places[y])
      ensures Rep(c', p.places[y].b)
    {
      assert PlaceOk(p, y, p.places[y]);
      SameBody(c, c', p, y, p.places[y].b);
    }
  }

  lemma SameBody(c: Cells, c': Cells, p: Pool, x: nat, b: Block)
    requires Rep(c, b) && BlockOk(b) && b.base == x && b.size == (if x == p.cache.base then p.cache.size else p.bs)
    requires forall a: nat :: InBody(p, a, x) ==> Load(c', a) == Load(c, a)
    ensures Rep(c', b)
  {
    forall a: nat | b.base + NODE <= a < b.base + b.size
      ensures Load(c', a) == Load(c, a)
    {
      assert InBody(p, a, x);
    }
    RepOutside(c, c', b);
  }

  /** A change in the cache block's body that turns it into another cache block. */
  lemma CacheChanged(c: Cells, c': Cells, p: Pool, p': Pool)
    requires PoolOk(p) && PoolRep(c, p) && p' == p.(cache := p'.cache, out := p'.out)
    requires OnlyIn(c, c', p.cache.base + NODE, p.cache.base + p.cache.size) && Rep(c', p'.cache)
    ensures PoolRep(c', p')
  {
    CacheNotBlock(p);
    assert ListsRep(c', p) by {
      BodyChange(c, c', p, p.cache.base);
      ListsFrame(c, c', p);
    }
    OtherBodies(c, c', p, p.cache.base);
  }

  /** A change in one block's body that gives it another place; the lists stay. */
  lemma BlockChanged(c: Cells, c': Cells, p: Pool, p': Pool, x: nat)
    requires PoolOk(p) && PoolRep(c, p) && x in p.places && x != p.cache.base
    requires p'.cache == p.cache && p'.freeList == p.freeList && p'.fullList == p.fullList
    requires p'.free == p.free && p'.full == p.full
    requires forall y :: y in p'.places && y != x ==> y in p.places && p'.places[y] == p.places[y]
    requires OnlyIn(c, c', x + NODE, x + p.bs)
    requires x in p'.places && HasBlock(p'.places[x]) ==> Rep(c', p'.places[x].b)
    ensures PoolRep(c', p')
  {
    assert ListsRep(c', p) by {
      BodyChange(c, c', p, x);
      ListsFrame(c, c', p);
    }
    OtherBodies(c, c', p, x);
  }

  /** No memory changes and no list does. */
  lemma PlaceChanged(c: Cells, p: Pool, p': Pool, x: nat)
    requires PoolRep(c, p)
    requires p'.cache == p.cache && p'.freeList == p.freeList && p'.fullList == p.fullList
    requires p'.free == p.free && p'.full == p.full
    requires forall y :: y in p'.places && y != x ==> y in p.places && p'.places[y] == p.places[y]
    requires x in p'.places && HasBlock(p'.places[x]) ==> Rep(c, p'.places[x].b)
    ensures PoolRep(c, p')
  {
  }
}
