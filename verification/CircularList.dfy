/** Intrusive circular doubly linked lists in raw memory (include/xfutil/list.h): a node at address x
    keeps its next pointer at x and its prev pointer at x + 8. */
module CircularList {
  import opened RawMemory
  import opened Collections

  const PREV := 8

  function Next(c: Cells, x: nat): nat { Load(c, x) }

  function Prev(c: Cells, x: nat): nat { Load(c, x + PREV) }

  /** Once around: the list head, its nodes, and the list head again. */
  function Ring(list: nat, s: seq<nat>): (r: seq<nat>)
    ensures |r| == |s| + 2
  {
    [list] + s + [list]
  }

  predicate Linked(c: Cells, a: nat, b: nat) {
    Next(c, a) == b && Prev(c, b) == a
  }

  /** The nodes s hang on list, in this order, linked both ways and closed. */
  ghost predicate Circle(c: Cells, list: nat, s: seq<nat>) {
    forall i: nat :: i <= |s| ==> Linked(c, Ring(list, s)[i], Ring(list, s)[i + 1])
  }

  /** The nodes do not overlap. */
  ghost predicate Separate(list: nat, s: seq<nat>) {
    forall i: nat, j: nat :: i < j <= |s| ==> Apart(Ring(list, s)[i], NODE, Ring(list, s)[j], NODE)
  }

  ghost predicate NewNode(list: nat, s: seq<nat>, node: nat) {
    forall i: nat :: i <= |s| ==> Apart(Ring(list, s)[i], NODE, node, NODE)
  }

  function InsertCells(c: Cells, node: nat, prev: nat, next: nat): Cells {
    c[next + PREV := node][node := next][node + PREV := prev][prev := node]
  }

  function DeleteCells(c: Cells, prev: nat, next: nat): Cells {
    c[next + PREV := prev][prev := next]
  }

  function InsertAt<T>(s: seq<T>, i: nat, x: T): seq<T>
    requires i <= |s|
  {
    s[..i] + [x] + s[i..]
  }

  /** Nodes in different places are far apart; the list head stands in two places. */
  lemma Far(list: nat, s: seq<nat>, i: nat, j: nat)
    requires Separate(list, s) && i <= |s| + 1 && j <= |s| + 1
    ensures Ring(list, s)[i] == Ring(list, s)[j] || Apart(Ring(list, s)[i], NODE, Ring(list, s)[j], NODE)
    ensures i < j && !(i == 0 && j == |s| + 1) ==> Apart(Ring(list, s)[i], NODE, Ring(list, s)[j], NODE)
  {
    var r := Ring(list, s);
    var i', j' := if i == |s| + 1 then 0 else i, if j == |s| + 1 then 0 else j;
    assert r[i] == r[i'] && r[j] == r[j'];
    if i' < j' {
      assert Apart(r[i'], NODE, r[j'], NODE);
    } else if j' < i' {
      assert Apart(r[j'], NODE, r[i'], NODE);
    }
  }

  /** A link of the circle that is not the one being cut survives the insertion. */
  lemma OtherLink(c: Cells, list: nat, s: seq<nat>, i: nat, k: nat, node: nat)
    requires Circle(c, list, s) && Separate(list, s) && NewNode(list, s, node)
    requires i <= |s| && k <= |s| && i != k
    ensures var r := Ring(list, s);
            Linked(InsertCells(c, node, r[i], r[i + 1]), r[k], r[k + 1])
  {
    var r := Ring(list, s);
    assert Linked(c, r[k], r[k + 1]);
    Far(list, s, i, k); Far(list, s, k, i);
    Far(list, s, i + 1, k + 1); Far(list, s, k + 1, i + 1);
    Far(list, s, i, k + 1); Far(list, s, k, i + 1);
    NodeFar(list, s, k, node); NodeFar(list, s, k + 1, node);
  }

  lemma NodeFar(list: nat, s: seq<nat>, i: nat, node: nat)
    requires NewNode(list, s, node) && i <= |s| + 1
    ensures Apart(Ring(list, s)[i], NODE, node, NODE)
  {
    var r := Ring(list, s);
    assert Apart(r[0], NODE, node, NODE);
    if i <= |s| {
      assert Apart(r[i], NODE, node, NODE);
    }
  }

  /** Inserting a node between two neighbours gives the circle with the node in that place. */
  lemma InsertCircle(c: Cells, list: nat, s: seq<nat>, i: nat, node: nat)
    requires Circle(c, list, s) && Separate(list, s) && NewNode(list, s, node) && i <= |s|
    ensures Circle(InsertCells(c, node, Ring(list, s)[i], Ring(list, s)[i + 1]), list, InsertAt(s, i, node))
  {
    var r, s' := Ring(list, s), InsertAt(s, i, node);
    var c' := InsertCells(c, node, r[i], r[i + 1]);
    var r' := Ring(list, s');
    assert forall j: nat :: j < |r'| ==> r'[j] == if j <= i then r[j] else if j == i + 1 then node else r[j - 1];
    assert Linked(c', r[i], node) && Linked(c', node, r[i + 1]) by {
      NodeFar(list, s, i, node);
      NodeFar(list, s, i + 1, node);
      Far(list, s, i, i + 1);
    }
    forall j: nat | j <= |s'|
      ensures Linked(c', r'[j], r'[j + 1])
    {
      if j < i || j > i + 1 {
        OtherLink(c, list, s, i, if j < i then j else j - 1, node);
      }
    }
  }

  lemma InsertSeparate(list: nat, s: seq<nat>, i: nat, node: nat)
    requires Separate(list, s) && NewNode(list, s, node) && i <= |s|
    ensures Separate(list, InsertAt(s, i, node))
  {
    var r, s' := Ring(list, s), InsertAt(s, i, node);
    var r' := Ring(list, s');
    assert forall j: nat :: j < |r'| ==> r'[j] == if j <= i then r[j] else if j == i + 1 then node else r[j - 1];
    forall j: nat, k: nat | j < k <= |s'|
      ensures Apart(r'[j], NODE, r'[k], NODE)
    {
      if j == i + 1 {
        NodeFar(list, s, k - 1, node);
      } else if k == i + 1 {
        NodeFar(list, s, j, node);
      } else {
        Far(list, s, if j <= i then j else j - 1, if k <= i then k else k - 1);
      }
    }
  }

  /** Taking a node out joins its neighbours. */
  lemma DeleteCircle(c: Cells, list: nat, s: seq<nat>, i: nat)
    requires Circle(c, list, s) && Separate(list, s) && i < |s|
    ensures Circle(DeleteCells(c, Ring(list, s)[i], Ring(list, s)[i + 2]), list, RemoveAt(s, i))
    ensures Separate(list, RemoveAt(s, i))
  {
    var r, s' := Ring(list, s), RemoveAt(s, i);
    var c' := DeleteCells(c, r[i], r[i + 2]);
    var r' := Ring(list, s');
    assert forall j: nat :: j < |r'| ==> r'[j] == if j <= i then r[j] else r[j + 1];
    forall j: nat | j <= |s'|
      ensures Linked(c', r'[j], r'[j + 1])
    {
      if j == i {
        Far(list, s, i, i + 2);
      } else {
        KeptLink(c, list, s, i, if j < i then j else j + 1);
      }
    }
    forall j: nat, k: nat | j < k <= |s'|
      ensures Apart(r'[j], NODE, r'[k], NODE)
    {
      Far(list, s, if j <= i then j else j + 1, if k <= i then k else k + 1);
    }
  }

  lemma KeptLink(c: Cells, list: nat, s: seq<nat>, i: nat, k: nat)
    requires Circle(c, list, s) && Separate(list, s) && i < |s| && k <= |s| && k != i && k != i + 1
    ensures var r := Ring(list, s);
            Linked(DeleteCells(c, r[i], r[i + 2]), r[k], r[k + 1])
  {
    var r := Ring(list, s);
    assert Linked(c, r[k], r[k + 1]);
    Far(list, s, i, k); Far(list, s, k, i);
    Far(list, s, i + 2, k + 1); Far(list, s, k + 1, i + 2);
    Far(list, s, i, k + 1); Far(list, s, k, i + 2);
  }

  /** A circle only depends on the cells of its nodes. */
  lemma CircleFrame(c: Cells, c': Cells, list: nat, s: seq<nat>)
    requires Circle(c, list, s)
    requires forall i: nat :: i <= |s| ==>
               && Next(c', Ring(list, s)[i]) == Next(c, Ring(list, s)[i])
               && Prev(c', Ring(list, s)[i]) == Prev(c, Ring(list, s)[i])
    ensures Circle(c', list, s)
  {
    var r := Ring(list, s);
    forall i: nat | i <= |s|
      ensures Linked(c', r[i], r[i + 1])
    {
      assert Linked(c, r[i], r[i + 1]);
      assert r[|s| + 1] == r[0];
    }
  }

  // --------------------------------------------------------------- the code

  method ListInit(m: Memory, list: nat)
    modifies m
    ensures Circle(m.cells, list, []) && m.cells == old(m.cells)[list := list][list + PREV := list]
  {
    m.Store(list, list);
    m.Store(list + PREV, list);
  }

  /** Between two neighbours of a circle, the node joins the circle in that place. */
  method ListInsert(m: Memory, node: nat, prev: nat, next: nat, ghost list: nat, ghost s: seq<nat>, ghost i: nat)
    requires Circle(m.cells, list, s) && Separate(list, s) && NewNode(list, s, node)
    requires i <= |s| && prev == Ring(list, s)[i] && next == Ring(list, s)[i + 1]
    modifies m
    ensures Circle(m.cells, list, InsertAt(s, i, node)) && Separate(list, InsertAt(s, i, node))
    ensures m.cells == InsertCells(old(m.cells), node, prev, next)
  {
    InsertCircle(m.cells, list, s, i, node);
    InsertSeparate(list, s, i, node);
    m.Store(next + PREV, node);
    m.Store(node, next);
    m.Store(node + PREV, prev);
    m.Store(prev, node);
  }

  /** A list is empty exactly when its head points at itself. */
  method ListEmpty(m: Memory, list: nat, ghost s: seq<nat>) returns (empty: bool)
    requires Circle(m.cells, list, s) && Separate(list, s)
    ensures empty <==> s == []
  {
    empty := Next(m.cells, list) == list;
    assert Linked(m.cells, Ring(list, s)[0], Ring(list, s)[1]);
    if s != [] { Far(list, s, 0, 1); }
  }

  method ListAddHead(m: Memory, node: nat, list: nat, ghost s: seq<nat>)
    requires Circle(m.cells, list, s) && Separate(list, s) && NewNode(list, s, node)
    modifies m
    ensures Circle(m.cells, list, [node] + s) && Separate(list, [node] + s)
    ensures m.cells == InsertCells(old(m.cells), node, list, Ring(list, s)[1])
  {
    assert Linked(m.cells, Ring(list, s)[0], Ring(list, s)[1]);
    ListInsert(m, node, list, Next(m.cells, list), list, s, 0);
    assert InsertAt(s, 0, node) == [node] + s;
  }

  method ListAddTail(m: Memory, node: nat, list: nat, ghost s: seq<nat>)
    requires Circle(m.cells, list, s) && Separate(list, s) && NewNode(list, s, node)
    modifies m
    ensures Circle(m.cells, list, s + [node]) && Separate(list, s + [node])
    ensures m.cells == InsertCells(old(m.cells), node, Ring(list, s)[|s|], list)
  {
    assert Linked(m.cells, Ring(list, s)[|s|], Ring(list, s)[|s| + 1]);
    ListInsert(m, node, Prev(m.cells, list), list, list, s, |s|);
    assert InsertAt(s, |s|, node) == s + [node];
  }

  method ListDelete(m: Memory, node: nat, ghost list: nat, ghost s: seq<nat>, ghost i: nat)
    requires Circle(m.cells, list, s) && Separate(list, s) && i < |s| && s[i] == node
    modifies m
    ensures Circle(m.cells, list, RemoveAt(s, i)) && Separate(list, RemoveAt(s, i))
    ensures m.cells == DeleteCells(old(m.cells), Ring(list, s)[i], Ring(list, s)[i + 2])
  {
    assert Linked(m.cells, Ring(list, s)[i], Ring(list, s)[i + 1]);
    assert Linked(m.cells, Ring(list, s)[i + 1], Ring(list, s)[i + 2]);
    DeleteCircle(m.cells, list, s, i);
    var prev, next := Prev(m.cells, node), Next(m.cells, node);
    m.Store(next + PREV, prev);
    m.Store(prev, next);
  }
}
