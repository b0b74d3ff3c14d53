/** Raw memory: words at addresses. */
module RawMemory {

  /** What every address holds; what was never written reads as 0. */
  type Cells = map<nat, nat>

  const NULL := 0

  /** The size of a list node: two pointers. */
  const NODE := 16

  function Load(c: Cells, a: nat): nat {
    if a in c then c[a] else 0
  }

  class Memory {
    var cells: Cells

    constructor ()
      ensures cells == map[]
    {
      cells := map[];
    }

    method Store(a: nat, v: nat)
      modifies this
      ensures cells == old(cells)[a := v]
    {
      cells := cells[a := v];
    }
  }

  /** Nothing outside [lo, hi) has changed. */
  ghost predicate OnlyIn(c: Cells, c': Cells, lo: nat, hi: nat) {
    forall a: nat :: !(lo <= a < hi) ==> Load(c', a) == Load(c, a)
  }

  /** Two ranges of addresses do not meet. */
  predicate Apart(a: nat, n: nat, b: nat, k: nat) {
    a + n <= b || b + k <= a
  }
}
