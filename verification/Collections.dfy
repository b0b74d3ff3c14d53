/** Small things that several modules need. */
module Collections {
  import opened Bits

  datatype Option<+T> = None | Some(value: T)

  /** Everything but the element at place i. */
  function RemoveAt<T>(s: seq<T>, i: nat): (r: seq<T>)
    requires i < |s|
    ensures |r| == |s| - 1
    ensures forall j :: 0 <= j < |r| ==> r[j] == if j < i then s[j] else s[j + 1]
  {
    s[..i] + s[i + 1..]
  }

  /** ALIGN_UP of the source: the smallest multiple of align that is not below size. */
  function AlignUp(size: nat, align: nat): (r: nat)
    requires align > 0
    ensures r % align == 0 && size <= r < size + align
  {
    var q := (size + (align - 1)) / align;
    DivModUnique(q * align, align, q, 0);
    q * align
  }

  lemma Regroup<T>(a: seq<T>, b: seq<T>, c: seq<T>)
    ensures a + b + c == a + (b + c)
  {
  }

  lemma SubsetSize<T>(a: set<T>, b: set<T>)
    requires a <= b
    ensures |a| <= |b|
    ensures |a| == |b| ==> a == b
  {
    assert |b| == |a| + |b - a| by { assert b == a + (b - a); }
  }
}
