/** The bloom filter (src/bloom_filter.cpp): rotated probes into a bit array. */
module BloomFilter {
  import opened Bits

  type Hash = x: int | 0 <= x < 0x1_0000_0000

  /** (hc >> 1) | (hc << 31), a rotation to the right by one bit. */
  function Rotate(hc: Hash): (r: Hash)
    ensures r == hc / 2 + (hc % 2) * 0x8000_0000
  {
    RotateIs(hc);
    Or(Shr(hc, 1), Shl(hc, 31, TWO32))
  }

  lemma RotateIs(hc: Hash)
    ensures Or(Shr(hc, 1), Shl(hc, 31, TWO32)) == hc / 2 + (hc % 2) * 0x8000_0000
  {
    var half: nat := 0x8000_0000;
    assert Pow2(31) == half && Pow2(32) == TWO32 && Shr(hc, 1) == hc / 2 by {
      Pow2Values();
      Pow2Add(28, 3);
    }
    OrShifted(hc / 2, hc, 31, 32, TWO32);
    ModScale(hc / 2, hc, half, 2);
  }

  /** The hash after j rotations. */
  function Rotated(hc: Hash, j: nat): Hash {
    if j == 0 then hc else Rotate(Rotated(hc, j - 1))
  }

  /** After j rotations the low j bits stand above the others. */
  lemma {:induction false} RotatedIs(hc: Hash, j: nat)
    requires j <= 32
    ensures Rotated(hc, j) == Turned(hc, Pow2(j), Pow2(32 - j))
  {
    if j == 0 {
      HashWhole(hc);
    } else {
      assert Rotated(hc, j - 1) == Turned(hc, Pow2(j - 1), 2 * Pow2(32 - j)) by { RotatedIs(hc, j - 1); }
      TopBit(j - 1);
      RotateSplit(hc, Pow2(j - 1), Pow2(32 - j), Rotated(hc, j - 1));
    }
  }

  /** The hash cut by m, the parts in each other's place. */
  function Turned(hc: Hash, m: nat, p: nat): int
    requires m > 0
  {
    hc / m + (hc % m) * p
  }

  lemma HashWhole(hc: Hash)
    ensures Turned(hc, Pow2(0), Pow2(32)) == hc
  {
  }

  lemma TopBit(i: nat)
    requires i <= 31
    ensures Pow2(i) * Pow2(31 - i) == 0x8000_0000
  {
    Pow2Add(i, 31 - i);
    assert Pow2(31) == 0x8000_0000 by {
      Pow2Add(28, 3);
      Pow2Values();
    }
  }

  /** Quotient and remainder by 2m, from those by m. */
  lemma HalfSplit(x: nat, m: nat)
    requires m > 0
    ensures x / (2 * m) == x / m / 2 && x % (2 * m) == x % m + x / m % 2 * m
  {
    var a, b := x / m, x % m;
    var h, e := a / 2, a % 2;
    assert x == m * a + b && a == 2 * h + e;
    assert m * a == 2 * m * h + m * e;
    assert e == 0 || e == 1;
    DivModUnique(x, 2 * m, h, b + e * m);
  }

  lemma RotateSplit(hc: Hash, m: nat, p: nat, x: Hash)
    requires m > 0 && m * p == 0x8000_0000 && x == Turned(hc, m, 2 * p)
    ensures Rotate(x) == Turned(hc, 2 * m, p)
  {
    var a, b := hc / m, hc % m;
    HalfSplit(hc, m);
    assert b * (2 * p) == 2 * (b * p);
    assert x / 2 == a / 2 + b * p && x % 2 == a % 2;
    assert (b + a % 2 * m) * p == b * p + a % 2 * 0x8000_0000 by { Spread(b, a % 2, m, p); }
  }

  lemma Spread(b: nat, e: nat, m: nat, p: nat)
    ensures (b + e * m) * p == b * p + e * (m * p)
  {
  }

  /** The bit that probe j falls on. */
  function ProbeAt(hc: Hash, j: nat, bits: nat): (pos: nat)
    requires bits > 0
    ensures pos < bits
  {
    Rotated(hc, j) % bits
  }

  predicate BitAt(data: seq<byte>, pos: nat)
    requires pos < 8 * |data|
  {
    Bit(data[pos / 8], pos % 8)
  }

  /** data[pos / 8] |= 1 << (pos % 8). */
  function SetBit(data: seq<byte>, pos: nat): (d: seq<byte>)
    requires pos < 8 * |data|
    ensures |d| == |data|
  {
    OrByte(data[pos / 8], pos % 8);
    data[pos / 8 := Or(data[pos / 8], Pow2(pos % 8))]
  }

  lemma OrByte(x: byte, k: nat)
    requires k < 8
    ensures Or(x, Pow2(k)) < 256
  {
    Pow2Values();
    Pow2Monotone(k + 1, 8);
    OrWithin(x, Pow2(k), 8);
  }

  lemma {:induction false} OrWithin(x: nat, y: nat, w: nat)
    requires x < Pow2(w) && y < Pow2(w)
    ensures Or(x, y) < Pow2(w)
  {
    if x == 0 || y == 0 {
    } else {
      OrWithin(x / 2, y / 2, w - 1);
    }
  }

  lemma SetBitAt(data: seq<byte>, pos: nat, q: nat)
    requires pos < 8 * |data| && q < 8 * |data|
    ensures BitAt(SetBit(data, pos), q) <==> BitAt(data, q) || q == pos
  {
    if q / 8 == pos / 8 {
      OrBit(data[pos / 8], Pow2(pos % 8), q % 8);
      Pow2Bit(pos % 8, q % 8);
    }
  }

  /** The bits the first k probes of a hash fall on. */
  ghost predicate Probed(hc: Hash, k: nat, bits: nat, pos: nat)
    requires bits > 0
  {
    exists j: nat :: j < k && ProbeAt(hc, j, bits) == pos
  }

  /** The data after the first k probes of a hash. */
  function Mark(data: seq<byte>, hc: Hash, k: nat): (d: seq<byte>)
    requires data != []
    ensures |d| == |data|
  {
    if k == 0 then data else SetBit(Mark(data, hc, k - 1), ProbeAt(hc, k - 1, 8 * |data|))
  }

  function MarkAll(data: seq<byte>, hashes: seq<Hash>, k: nat): (d: seq<byte>)
    requires data != []
    ensures |d| == |data|
  {
    if hashes == [] then data
    else Mark(MarkAll(data, hashes[..|hashes| - 1], k), hashes[|hashes| - 1], k)
  }

  lemma {:induction false} MarkBits(data: seq<byte>, hc: Hash, k: nat, q: nat)
    requires data != [] && q < 8 * |data|
    ensures BitAt(Mark(data, hc, k), q) <==> BitAt(data, q) || Probed(hc, k, 8 * |data|, q)
  {
    if k == 0 {
    } else {
      var bits := 8 * |data|;
      MarkBits(data, hc, k - 1, q);
      SetBitAt(Mark(data, hc, k - 1), Rotated(hc, k - 1) % bits, q);
      if Probed(hc, k, bits, q) && !Probed(hc, k - 1, bits, q) {
        var j: nat :| j < k && ProbeAt(hc, j, bits) == q;
        assert j == k - 1;
      }
    }
  }

  /** A bit is set exactly when it was before or a probe of some key falls on it. */
  lemma {:induction false} MarkAllBits(data: seq<byte>, hashes: seq<Hash>, k: nat, q: nat)
    requires data != [] && q < 8 * |data|
    ensures BitAt(MarkAll(data, hashes, k), q) <==>
            BitAt(data, q) || exists hc :: hc in hashes && Probed(hc, k, 8 * |data|, q)
  {
    if hashes == [] {
    } else {
      var front, last := hashes[..|hashes| - 1], hashes[|hashes| - 1];
      MarkAllBits(data, front, k, q);
      MarkBits(MarkAll(data, front, k), last, k, q);
      assert hashes == front + [last];
    }
  }

  /** Two bit arrays of the same length with the same bits are the same bytes. */
  lemma SameBits(a: seq<byte>, b: seq<byte>)
    requires |a| == |b|
    requires forall q: nat :: q < 8 * |a| ==> BitAt(a, q) == BitAt(b, q)
    ensures a == b
  {
    Pow2Values();
    forall i | 0 <= i < |a|
      ensures a[i] == b[i]
    {
      forall k: nat | k < 8
        ensures Bit(a[i], k) == Bit(b[i], k)
      {
        assert (8 * i + k) / 8 == i && (8 * i + k) % 8 == k;
        assert BitAt(a, 8 * i + k) == BitAt(b, 8 * i + k);
      }
      BitsDetermine(a[i], b[i], 8);
    }
  }

  /** The data depends only on which keys there are, not on their order or repetition. */
  lemma OrderIrrelevant(data: seq<byte>, xs: seq<Hash>, ys: seq<Hash>, k: nat)
    requires data != []
    requires forall hc :: hc in xs <==> hc in ys
    ensures MarkAll(data, xs, k) == MarkAll(data, ys, k)
  {
    forall q: nat | q < 8 * |data|
      ensures BitAt(MarkAll(data, xs, k), q) == BitAt(MarkAll(data, ys, k), q)
    {
      MarkAllBits(data, xs, k, q);
      MarkAllBits(data, ys, k, q);
    }
    SameBits(MarkAll(data, xs, k), MarkAll(data, ys, k));
  }

  /** What Check answers on the given data. */
  ghost predicate Passes(data: seq<byte>, k: nat, hc: Hash) {
    data == [] || forall j: nat :: j < k ==> BitAt(data, ProbeAt(hc, j, 8 * |data|))
  }

  /** No false negatives, also for a reader that uses fewer probes than the writer. */
  lemma NoFalseNegative(data: seq<byte>, hashes: seq<Hash>, k: nat, fewer: nat, hc: Hash)
    requires data != [] && hc in hashes && fewer <= k
    ensures Passes(MarkAll(data, hashes, k), fewer, hc)
  {
    var bits := 8 * |data|;
    forall j: nat | j < fewer
      ensures BitAt(MarkAll(data, hashes, k), ProbeAt(hc, j, bits))
    {
      assert Probed(hc, k, bits, ProbeAt(hc, j, bits));
      MarkAllBits(data, hashes, k, ProbeAt(hc, j, bits));
    }
  }

  function Zeros(n: nat): seq<byte> { seq(n, _ => 0) }

  /** std::string::resize. */
  function Resize(data: seq<byte>, n: nat): (d: seq<byte>)
    ensures |d| == n && forall i :: 0 <= i < n ==> d[i] == if i < |data| then data[i] else 0
  {
    if n <= |data| then data[..n] else data + Zeros(n - |data|)
  }

  /** Some key's probe falls on the bit. */
  ghost predicate Hit(hashes: seq<Hash>, k: nat, bits: nat, pos: nat)
    requires bits > 0
  {
    exists hc :: hc in hashes && Probed(hc, k, bits, pos)
  }

  /** On a fresh filter the probes account for every set bit. */
  lemma FreshBits(n: nat, hashes: seq<Hash>, k: nat, q: nat)
    requires q < 8 * n
    ensures BitAt(MarkAll(Resize([], n), hashes, k), q) <==> Hit(hashes, k, 8 * n, q)
  {
    MarkAllBits(Resize([], n), hashes, k, q);
    ZeroBit(q % 8);
  }

  /** A fresh filter accepts a hash exactly if each of its probes falls on a probe of some key. */
  lemma AcceptedExactly(n: nat, hashes: seq<Hash>, k: nat, fewer: nat, hc: Hash)
    requires n > 0
    ensures Passes(MarkAll(Resize([], n), hashes, k), fewer, hc) <==>
            forall j: nat :: j < fewer ==> Hit(hashes, k, 8 * n, ProbeAt(hc, j, 8 * n))
  {
    var data := MarkAll(Resize([], n), hashes, k);
    forall j: nat | j < fewer
      ensures BitAt(data, ProbeAt(hc, j, 8 * |data|)) <==> Hit(hashes, k, 8 * n, ProbeAt(hc, j, 8 * n))
    {
      FreshBits(n, hashes, k, ProbeAt(hc, j, 8 * n));
    }
  }

  class BloomFilter {
    const m_bitnum_perkey: nat
    const m_k_num: nat
    var m_data: seq<byte>

    /** The probe count comes out of a floating-point product; any value in its range will do. */
    constructor (bitnum_perkey: nat, k_num: nat)
      requires bitnum_perkey >= 1 && 1 <= k_num <= 30
      ensures m_bitnum_perkey == bitnum_perkey && m_k_num == k_num && m_data == []
    {
      m_bitnum_perkey, m_k_num, m_data := bitnum_perkey, k_num, [];
    }

    /** The least number of bytes that hold the bits of the given number of keys. */
    function Bytes(count: nat): (r: nat)
      ensures count * m_bitnum_perkey <= 8 * r < count * m_bitnum_perkey + 8
    {
      (count * m_bitnum_perkey + 7) / 8
    }

    method Create(hashes: array<Hash>) returns (ok: bool)
      requires m_bitnum_perkey >= 1
      modifies this
      ensures ok == (hashes.Length != 0)
      ensures !ok ==> m_data == old(m_data)
      ensures ok ==> Bytes(hashes.Length) > 0 &&
                     m_data == MarkAll(Resize(old(m_data), Bytes(hashes.Length)), hashes[..], m_k_num)
    {
      if hashes.Length == 0 {
        return false;
      }
      BytesPositive(hashes.Length, m_bitnum_perkey);
      var total_bytes := Bytes(hashes.Length);
      var total_bits := total_bytes * 8;
      m_data := Resize(m_data, total_bytes);
      ghost var start := m_data;
      for i := 0 to hashes.Length
        invariant m_data == MarkAll(start, hashes[..i], m_k_num)
      {
        m_data := Insert(hashes[i]);
        assert hashes[..i + 1][..i] == hashes[..i];
      }
      assert hashes[..hashes.Length] == hashes[..];
      return true;
    }

    /** Works a queue of hashes off from the front; rest is what it leaves there. */
    method CreateFromDeque(hashes: seq<Hash>) returns (ok: bool, rest: seq<Hash>)
      requires m_bitnum_perkey >= 1
      modifies this
      ensures ok == (hashes != []) && rest == []
      ensures !ok ==> m_data == old(m_data)
      ensures ok ==> Bytes(|hashes|) > 0 &&
                     m_data == MarkAll(Resize(old(m_data), Bytes(|hashes|)), hashes, m_k_num)
    {
      if hashes == [] {
        return false, hashes;
      }
      BytesPositive(|hashes|, m_bitnum_perkey);
      m_data := Resize(m_data, Bytes(|hashes|));
      rest := Drain(hashes);
      return true, rest;
    }

    method Drain(hashes: seq<Hash>) returns (rest: seq<Hash>)
      requires m_data != []
      modifies this
      ensures rest == [] && m_data == MarkAll(old(m_data), hashes, m_k_num)
    {
      rest := hashes;
      ghost var done: seq<Hash> := [];
      while rest != []
        invariant done + rest == hashes
        invariant m_data == MarkAll(old(m_data), done, m_k_num)
        decreases |rest|
      {
        var hc := rest[0];
        rest := rest[1..];
        m_data := Insert(hc);
        assert (done + [hc])[..|done|] == done;
        done := done + [hc];
      }
      assert done == hashes;
    }

    /** The inner loop of both Create forms. */
    method Insert(hash: Hash) returns (data: seq<byte>)
      requires m_data != []
      ensures data == Mark(m_data, hash, m_k_num)
    {
      data := m_data;
      var hc := hash;
      for j := 0 to m_k_num
        invariant hc == Rotated(hash, j) && data == Mark(m_data, hash, j)
      {
        data := SetBit(data, hc % (8 * |data|));
        hc := Rotate(hc);
      }
    }

    method Attach(data: seq<byte>)
      modifies this
      ensures m_data == data
    {
      m_data := data;
    }

    method Check(hash: Hash) returns (r: bool)
      ensures r <==> Passes(m_data, m_k_num, hash)
    {
      if m_data == [] {
        return true;
      }
      var total_bits := 8 * |m_data|;
      var hc := hash;
      for j := 0 to m_k_num
        invariant hc == Rotated(hash, j)
        invariant forall i: nat :: i < j ==> BitAt(m_data, ProbeAt(hash, i, total_bits))
      {
        assert hc % total_bits == ProbeAt(hash, j, total_bits);
        if !BitAt(m_data, hc % total_bits) {
          return false;
        }
        hc := Rotate(hc);
      }
      return true;
    }
  }

  lemma BytesPositive(count: nat, perkey: nat)
    requires count > 0 && perkey >= 1
    ensures (count * perkey + 7) / 8 > 0
  {
    assert count * perkey >= 1;
  }

  /** Building a filter, shipping its data to another one with no more probes, and asking there. */
  method CreateAttachCheck(writer: BloomFilter, reader: BloomFilter, hashes: array<Hash>, i: nat) returns (r: bool)
    requires writer.m_bitnum_perkey >= 1 && writer != reader
    requires i < hashes.Length && reader.m_k_num <= writer.m_k_num
    modifies writer, reader
    ensures r
  {
    var ok := writer.Create(hashes);
    reader.Attach(writer.m_data);
    r := reader.Check(hashes[i]);
    ghost var n := writer.Bytes(hashes.Length);
    NoFalseNegative(Resize(old(writer.m_data), n), hashes[..], writer.m_k_num, reader.m_k_num, hashes[i]);
  }
}
