/** Variable-length, zigzag and fixed-width coding (src/coding.cpp, include/xfutil/coding.h). */
module Coding {
  import opened Bits
  import opened Collections

  const MAX_V16_SIZE := 3
  const MAX_V32_SIZE := 5
  const MAX_V64_SIZE := 10

  /** A decoded word and the number of bytes it took. */
  datatype Read = Read(len: nat, word: nat)

  // ---------------------------------------------------------------- varint

  /** Unsigned LEB128 (section 7.6 of DWARF Version 5). */
  function Varint(v: nat): (s: seq<byte>)
    ensures |s| > 0
  {
    if v < 0x80 then [v] else [v % 128 + 128] + Varint(v / 128)
  }

  /** The number that a string of 7-bit groups stands for. */
  function LebValue(s: seq<byte>): nat {
    if s == [] then 0 else s[0] % 128 + 128 * LebValue(s[1..])
  }

  /** Where the first byte without continuation bit stands, or the length if there is none. */
  function VarintEnd(s: seq<byte>): (k: nat)
    ensures k <= |s|
    ensures k < |s| ==> s[k] < 0x80
    ensures forall i :: 0 <= i < k ==> s[i] >= 0x80
  {
    if s == [] || s[0] < 0x80 then 0 else 1 + VarintEnd(s[1..])
  }

  /** What a reader of at most maxLen bytes into a word of size m finds at the start of s. */
  function DecodedVarint(s: seq<byte>, maxLen: nat, m: nat): Option<Read>
    requires m > 0
  {
    var k := VarintEnd(s);
    if k < |s| && k < maxLen then Some(Read(k + 1, LebValue(s[..k + 1]) % m)) else None
  }

  lemma {:induction false} LebAppend(s: seq<byte>, b: byte)
    ensures LebValue(s + [b]) == LebValue(s) + (b % 128) * Pow2(7 * |s|)
  {
    if s == [] {
    } else {
      var p, c := Pow2(7 * (|s| - 1)), b % 128;
      assert Pow2(7 * |s|) == 128 * p by { Pow2Scale(7, 7 * (|s| - 1)); }
      LebAppend(s[1..], b);
      assert (s + [b])[1..] == s[1..] + [b];
      Swap(128, c, p);
    }
  }

  lemma Swap(a: nat, b: nat, c: nat)
    ensures a * (b * c) == b * (a * c)
  {
  }

  lemma {:induction false} LebBound(s: seq<byte>)
    ensures LebValue(s) < Pow2(7 * |s|)
  {
    if s == [] {
    } else {
      LebBound(s[1..]);
      Pow2Scale(7, 7 * (|s| - 1));
    }
  }

  /** One round of a decoding loop: the next 7 bits go on top of what was read. */
  lemma Accumulate(s: seq<byte>, b: byte, w: nat, m: nat)
    requires 7 * |s| <= w && m == Pow2(w)
    ensures Or(LebValue(s), Shl(And(b, 0x7f), 7 * |s|, m)) == LebValue(s + [b]) % m
  {
    LebBound(s);
    LebAppend(s, b);
    LowSeven(b);
    OrShifted(LebValue(s), And(b, 0x7f), 7 * |s|, w, m);
  }

  lemma SmallMod(x: nat, m: nat)
    requires x < m
    ensures x % m == x
  {
  }

  lemma LowSeven(b: nat)
    ensures And(b, 0x7f) == b % 128
    ensures b < 0x80 ==> And(b, 0x7f) == b
  {
    AndMaskIs(b, 7, 0x7f);
  }

  /** The round for a full group, after which nothing has been lost yet. */
  lemma AccumulateWhole(s: seq<byte>, b: byte, w: nat, m: nat)
    requires 7 * |s| + 7 <= w && m == Pow2(w)
    ensures Or(LebValue(s), Shl(And(b, 0x7f), 7 * |s|, m)) == LebValue(s + [b])
  {
    Accumulate(s, b, w, m);
    LebBound(s + [b]);
    Pow2Monotone(7 * |s + [b]|, w);
    SmallMod(LebValue(s + [b]), m);
  }

  lemma Accumulate64(s: seq<byte>, b: byte)
    requires |s| <= 9
    ensures Or(LebValue(s), Shl(And(b, 0x7f), 7 * |s|, TWO64)) == LebValue(s + [b]) % TWO64
    ensures |s| < 9 ==> Or(LebValue(s), Shl(And(b, 0x7f), 7 * |s|, TWO64)) == LebValue(s + [b])
    ensures b < 0x80 ==> And(b, 0x7f) == b
  {
    Pow2Values();
    LowSeven(b);
    Accumulate(s, b, 64, TWO64);
    if |s| < 9 {
      AccumulateWhole(s, b, 64, TWO64);
    }
  }

  lemma Accumulate32(s: seq<byte>, b: byte)
    requires |s| <= 4
    ensures Or(LebValue(s), Shl(And(b, 0x7f), 7 * |s|, TWO32)) == LebValue(s + [b]) % TWO32
    ensures |s| < 4 ==> Or(LebValue(s), Shl(And(b, 0x7f), 7 * |s|, TWO32)) == LebValue(s + [b])
    ensures b < 0x80 ==> And(b, 0x7f) == b
  {
    Pow2Values();
    LowSeven(b);
    Accumulate(s, b, 32, TWO32);
    if |s| < 4 {
      AccumulateWhole(s, b, 32, TWO32);
    }
  }

  lemma {:induction false} VarintValue(v: nat)
    ensures LebValue(Varint(v)) == v
  {
    if v < 0x80 {
    } else {
      VarintValue(v / 128);
      assert Varint(v)[1..] == Varint(v / 128);
    }
  }

  /** The encoding takes at most k bytes exactly for the values below 2^(7k). */
  lemma {:induction false} VarintLength(v: nat, k: nat)
    requires k > 0
    ensures |Varint(v)| <= k <==> v < Pow2(7 * k)
  {
    Pow2Scale(7, 7 * (k - 1));
    if v < 0x80 || k <= 1 {
    } else {
      VarintLength(v / 128, k - 1);
    }
  }

  lemma VarintSizes(v: nat)
    ensures v < TWO16 ==> |Varint(v)| <= MAX_V16_SIZE
    ensures v < TWO32 ==> |Varint(v)| <= MAX_V32_SIZE
    ensures v < TWO64 ==> |Varint(v)| <= MAX_V64_SIZE
    ensures |Varint(v)| <= MAX_V16_SIZE <==> v < 0x20_0000
  {
    Pow2Values();
    VarintLength(v, 3);
    VarintLength(v, 5);
    VarintLength(v, 10);
  }

  lemma {:induction false} VarintEndOf(v: nat, rest: seq<byte>)
    ensures VarintEnd(Varint(v) + rest) == |Varint(v)| - 1
  {
    var s := Varint(v) + rest;
    if v < 0x80 {
      assert s[0] < 0x80;
    } else {
      assert s[0] >= 0x80 && s[1..] == Varint(v / 128) + rest;
      assert VarintEnd(s[1..]) == |Varint(v / 128)| - 1 by { VarintEndOf(v / 128, rest); }
    }
  }

  /** Decoding an encoding followed by anything gives the value back and takes exactly its bytes. */
  lemma VarintRoundTrip(v: nat, rest: seq<byte>, maxLen: nat, m: nat)
    requires v < m && |Varint(v)| <= maxLen
    ensures DecodedVarint(Varint(v) + rest, maxLen, m) == Some(Read(|Varint(v)|, v))
  {
    VarintEndOf(v, rest);
    VarintValue(v);
    assert (Varint(v) + rest)[..|Varint(v)|] == Varint(v);
  }

  /** No strict prefix of an encoding decodes. */
  lemma VarintPrefixRejected(v: nat, k: nat, maxLen: nat, m: nat)
    requires k < |Varint(v)| && m > 0
    ensures DecodedVarint(Varint(v)[..k], maxLen, m) == None
  {
    VarintEndOf(v, []);
    assert Varint(v) + [] == Varint(v);
    var p := Varint(v)[..k];
    assert forall i :: 0 <= i < k ==> p[i] == Varint(v)[i] >= 0x80;
  }

  method EncodeVarint(buf: array<byte>, start: nat, value: nat) returns (p: nat)
    requires start + |Varint(value)| <= buf.Length
    modifies buf
    ensures p == start + |Varint(value)|
    ensures buf[start..p] == Varint(value)
    ensures buf[..start] == old(buf[..start]) && buf[p..] == old(buf[..])[p..]
  {
    p := start;
    var v := value;
    ghost var code, k := Varint(value), 0;
    while v >= 0x80
      invariant k < |code| && p == start + k
      invariant code[k..] == Varint(v)
      invariant forall i :: 0 <= i < k ==> buf[start + i] == code[i]
      invariant forall i :: 0 <= i < buf.Length && !(start <= i < p) ==> buf[i] == old(buf[i])
      decreases |code| - k
    {
      NextGroup(code, k, v);
      buf[p] := Continued(v);
      p, k := p + 1, k + 1;
      v := Shr(v, 7);
    }
    LastGroup(code, k, v);
    buf[p] := v;
    p := p + 1;
    Frame(buf[..], old(buf[..]), start, p);
  }

  lemma LastGroup(code: seq<byte>, k: nat, v: nat)
    requires k < |code| && code[k..] == Varint(v) && v < 0x80
    ensures k == |code| - 1 && code[k] == v
  {
    assert code[k] == code[k..][0];
  }

  lemma NextGroup(code: seq<byte>, k: nat, v: nat)
    requires k < |code| && code[k..] == Varint(v) && v >= 0x80
    ensures code[k] == Continued(v) && k + 1 < |code| && code[k + 1..] == Varint(Shr(v, 7))
  {
    VarintStep(v);
    Shifts(v);
    assert code[k] == code[k..][0] && code[k + 1..] == code[k..][1..];
  }

  /** The reader stops at the tenth byte or at end, whichever comes first. */
  /** One round of a decoder: group k joins the value read so far. */
  lemma GroupStep(s: seq<byte>, k: nat, v: nat, maxLen: nat, m: nat)
    requires (maxLen == 10 && m == TWO64) || (maxLen == 5 && m == TWO32)
    requires k < |s| && k < maxLen && (forall i :: 0 <= i < k ==> s[i] >= 0x80) && v == LebValue(s[..k])
    ensures var x := Or(v, Shl(And(s[k], 0x7f), 7 * k, m));
            && (s[k] >= 0x80 && k + 1 < maxLen ==> x == LebValue(s[..k + 1]))
            && (s[k] < 0x80 ==>
                  And(s[k], 0x7f) == s[k] && VarintEnd(s) == k && DecodedVarint(s, maxLen, m) == Some(Read(k + 1, x)))
  {
    assert s[..k + 1] == s[..k] + [s[k]];
    if maxLen == 10 { Accumulate64(s[..k], s[k]); } else { Accumulate32(s[..k], s[k]); }
    assert VarintEnd(s) >= k;
  }

  /** A decoder that runs out of groups or of rounds fails. */
  lemma GroupsOut(s: seq<byte>, k: nat, maxLen: nat, m: nat)
    requires m > 0 && k <= |s| && (k == |s| || k == maxLen) && forall i :: 0 <= i < k ==> s[i] >= 0x80
    ensures VarintEnd(s) >= k && DecodedVarint(s, maxLen, m) == None
  {
  }

  method DecodeVarint(buf: array<byte>, start: nat, end: nat) returns (ok: bool, p: nat, v: nat)
    requires start <= end <= buf.Length
    ensures start <= p <= end
    ensures ok <==> DecodedVarint(buf[start..end], 10, TWO64).Some?
    ensures ok ==> DecodedVarint(buf[start..end], 10, TWO64) == Some(Read(p - start, v))
    ensures !ok ==> p == if end - start < 10 then end else start + 10
  {
    v, p := 0, start;
    var shift := 0;
    ghost var s := buf[start..end];
    while shift < 64 && p < end
      invariant start <= p <= end && shift == 7 * (p - start) && p - start <= 10
      invariant forall i :: 0 <= i < p - start ==> s[i] >= 0x80
      invariant p - start < 10 ==> v == LebValue(s[..p - start])
      decreases end - p
    {
      GroupStep(s, p - start, v, 10, TWO64);
      var b := buf[p];
      p := p + 1;
      if b >= 0x80 {
        v := Or(v, Shl(And(b, 0x7f), shift, TWO64));
      } else {
        v := Or(v, Shl(b, shift, TWO64));
        return true, p, v;
      }
      shift := shift + 7;
    }
    ok := false;
    GroupsOut(s, p - start, 10, TWO64);
  }

  // ------------------------------------------------------- reversed varint

  function Reverse<T>(s: seq<T>): (r: seq<T>)
    ensures |r| == |s|
    ensures forall i :: 0 <= i < |s| ==> r[i] == s[|s| - 1 - i]
  {
    if s == [] then [] else Reverse(s[1..]) + [s[0]]
  }

  lemma VarintStep(u: nat)
    requires u >= 0x80
    ensures Varint(u) == [Continued(u)] + Varint(u / 0x80)
  {
    Pow2Seven();
    OrTopBit(u, 7);
  }

  lemma Shifts(v: nat)
    ensures Shr(v, 7) == v / 0x80 && Shr(v, 14) == v / 0x4000
    ensures Shr(v, 21) == v / 0x20_0000 && Shr(v, 28) == v / 0x1000_0000
  {
    Pow2Values();
  }

  /** The low byte of u | 0x80. */
  function Continued(u: nat): byte {
    Or(u, 0x80) % 256
  }

  lemma Varint2(v: nat)
    requires 0x80 <= v < 0x4000
    ensures Varint(v) == [Continued(v), v / 0x80]
  {
    VarintStep(v);
  }

  lemma Varint3(v: nat)
    requires 0x4000 <= v < 0x20_0000
    ensures Varint(v) == [Continued(v), Continued(v / 0x80), v / 0x4000]
  {
    VarintStep(v);
    Varint2(v / 0x80);
  }

  lemma Varint4(v: nat)
    requires 0x20_0000 <= v < 0x1000_0000
    ensures Varint(v) == [Continued(v), Continued(v / 0x80), Continued(v / 0x4000), v / 0x20_0000]
  {
    VarintStep(v);
    Varint3(v / 0x80);
  }

  lemma Varint5(v: nat)
    requires 0x1000_0000 <= v < TWO32
    ensures Varint(v) == [Continued(v), Continued(v / 0x80), Continued(v / 0x4000),
                          Continued(v / 0x20_0000), v / 0x1000_0000]
  {
    VarintStep(v);
    var u := v / 0x80;
    Varint4(u);
    assert u / 0x80 == v / 0x4000 && u / 0x4000 == v / 0x20_0000 && u / 0x20_0000 == v / 0x1000_0000;
  }

  /** The unrolled writer puts down the looped writer's bytes back to front. */
  method EncodeVarintR(buf: array<byte>, start: nat, v: nat) returns (p: nat)
    requires v < TWO32
    requires start + |Varint(v)| <= buf.Length
    modifies buf
    ensures p == start + |Varint(v)|
    ensures buf[start..p] == Reverse(Varint(v))
    ensures buf[..start] == old(buf[..start]) && buf[p..] == old(buf[..])[p..]
  {
    Shifts(v);
    p := start;
    if v < 0x80 {
      buf[p] := v;
      return p + 1;
    } else if v < 0x4000 {
      Varint2(v);
      buf[p], buf[p + 1] := Shr(v, 7), Continued(v);
      return p + 2;
    } else if v < 0x20_0000 {
      Varint3(v);
      buf[p], buf[p + 1], buf[p + 2] := Shr(v, 14), Continued(Shr(v, 7)), Continued(v);
      return p + 3;
    } else if v < 0x1000_0000 {
      Varint4(v);
      buf[p], buf[p + 1], buf[p + 2], buf[p + 3] :=
        Shr(v, 21), Continued(Shr(v, 14)), Continued(Shr(v, 7)), Continued(v);
      return p + 4;
    }
    Varint5(v);
    buf[p], buf[p + 1], buf[p + 2], buf[p + 3], buf[p + 4] :=
      Shr(v, 28), Continued(Shr(v, 21)), Continued(Shr(v, 14)), Continued(Shr(v, 7)), Continued(v);
    return p + 5;
  }

  /** The bytes a downward reader meets, starting on buf[last]. */
  ghost function Downward(buf: array<byte>, last: nat): (s: seq<byte>)
    requires last < buf.Length
    reads buf
    ensures |s| == last + 1
    ensures forall i :: 0 <= i <= last ==> s[i] == buf[last - i]
  {
    seq(last + 1, i requires 0 <= i <= last reads buf => buf[last - i])
  }

  /** The decoder leaves a buffer that starts at lo: it starts inside, finds no final group there,
      and the buffer is shorter than the five groups it may read. */
  predicate LeavesBuffer(s: seq<byte>, lo: nat, last: nat, rend: nat)
    requires lo <= last < |s|
  {
    last < rend && last - lo < 4 && forall i :: lo <= i <= last ==> s[i] >= 0x80
  }

  /** How many bytes the decoder reads. */
  ghost function GroupsRead(s: seq<byte>): nat {
    if VarintEnd(s) < 5 then VarintEnd(s) + 1 else 5
  }

  lemma LeavesExactly(buf: array<byte>, last: nat, rend: nat, lo: nat)
    requires lo <= last < buf.Length && last < rend
    ensures last + 1 - GroupsRead(Downward(buf, last)) < lo <==> LeavesBuffer(buf[..], lo, last, rend)
  {
    var s := Downward(buf, last);
    assert forall i :: lo <= i <= last ==> buf[..][i] == s[last - i];
    if VarintEnd(s) <= last - lo {
      assert buf[..][last - VarintEnd(s)] < 0x80;
    }
  }

  /** Reads downwards from buf[last] to buf[r + 1]. The loop never looks at a lower bound: whatever
      lies below a buffer that starts at lo is read exactly when LeavesBuffer says so. What is read
      has to be memory, below the buffer or not. */
  method DecodeVarintR(buf: array<byte>, last: nat, rend: nat, ghost lo: nat) returns (ok: bool, r: int, v: nat)
    requires lo <= last < buf.Length
    requires last >= rend || last >= 4 || VarintEnd(Downward(buf, last)) <= last
    ensures -1 <= r <= last
    ensures last >= rend ==> !ok && r == last
    ensures last < rend ==> (ok <==> DecodedVarint(Downward(buf, last), 5, TWO32).Some?)
    ensures ok ==> DecodedVarint(Downward(buf, last), 5, TWO32) == Some(Read(last - r, v))
    ensures r + 1 < lo <==> LeavesBuffer(buf[..], lo, last, rend)
  {
    if last < rend { LeavesExactly(buf, last, rend, lo); }
    ok, r, v := ReadDownward(buf, last, rend);
  }

  method ReadDownward(buf: array<byte>, last: nat, rend: nat) returns (ok: bool, r: int, v: nat)
    requires last < buf.Length
    requires last >= rend || last >= 4 || VarintEnd(Downward(buf, last)) <= last
    ensures -1 <= r <= last
    ensures r == if last < rend then last - GroupsRead(Downward(buf, last)) else last
    ensures ok <==> last < rend && DecodedVarint(Downward(buf, last), 5, TWO32).Some?
    ensures ok ==> DecodedVarint(Downward(buf, last), 5, TWO32) == Some(Read(last - r, v))
  {
    ghost var s := Downward(buf, last);
    v, r := 0, last;
    var shift := 0;
    while shift < 32 && r < rend
      invariant -1 <= r <= last && shift == 7 * (last - r) && last - r <= 5
      invariant r < last ==> last < rend
      invariant forall i :: 0 <= i < last - r ==> s[i] >= 0x80
      invariant last - r < 5 ==> v == LebValue(s[..last - r])
      decreases r
    {
      GroupStep(s, last - r, v, 5, TWO32);
      var b := buf[r];
      r := r - 1;
      if b >= 0x80 {
        v := Or(v, Shl(And(b, 0x7f), shift, TWO32));
      } else {
        v := Or(v, Shl(b, shift, TWO32));
        return true, r, v;
      }
      shift := shift + 7;
    }
    ok := false;
    if last < rend { GroupsOut(s, last - r, 5, TWO32); }
  }

  lemma LebPair(a: byte, b: byte)
    ensures LebValue([a, b]) == a % 128 + 128 * (b % 128)
  {
    assert [a, b][1..] == [b] && [b][1..] == [];
    assert LebValue([b]) == b % 128;
  }

  /** Given a buffer of the one byte 0x80, the decoder succeeds with a value that the byte below the
      buffer decides. */
  method ForeignByteDecides(below: byte) returns (ok: bool, v: nat)
    requires below < 0x80
    ensures ok && v == below * 128
  {
    var buf := new byte[2];
    buf[0], buf[1] := below, 0x80;
    var r;
    assert Downward(buf, 1) == [0x80, below];
    assert VarintEnd([0x80, below]) == 1;
    LebPair(0x80, below);
    assert [0x80, below][..2] == [0x80, below];
    assert LeavesBuffer(buf[..], 1, 1, 2);
    ok, r, v := DecodeVarintR(buf, 1, 2, 1);
  }

  /** A reversed encoding read from its last byte gives the value back, to its first byte. */
  lemma ReversedRoundTrip(buf: array<byte>, start: nat, last: nat, v: nat)
    requires v < TWO32 && start <= last < buf.Length
    requires buf[start..last + 1] == Reverse(Varint(v))
    ensures DecodedVarint(Downward(buf, last), 5, TWO32) == Some(Read(last + 1 - start, v))
  {
    var s := Downward(buf, last);
    var rest := s[last + 1 - start..];
    forall i | 0 <= i < last + 1 - start
      ensures s[i] == Varint(v)[i]
    {
      assert s[i] == buf[last - i] == buf[start..last + 1][last - i - start];
    }
    assert s == Varint(v) + rest;
    VarintSizes(v);
    VarintRoundTrip(v, rest, 5, TWO32);
  }

  // ---------------------------------------------------------------- zigzag

  predicate IsSigned(v: int, m: nat) {
    0 <= 2 * v + m < 2 * m
  }

  /** The signed number a word of size m stands for, in two's complement. */
  function Signed(x: nat, m: nat): int
    requires x < m
  {
    if 2 * x < m then x else x - m
  }

  /** (value << 1) ^ (value >> width - 1), the second shift being arithmetic. */
  function EncodeZigZag(value: int, m: nat): nat
    requires m > 0
  {
    Xor(2 * value % m, if value < 0 then m - 1 else 0)
  }

  /** (value >> 1) ^ -(value & 1). */
  function DecodeZigZag(u: nat, m: nat): int
    requires u < m && exists w: nat :: m == Pow2(w)
  {
    var x := Xor(u / 2, if u % 2 == 1 then m - 1 else 0);
    XorWithin(u / 2, m);
    Signed(x, m)
  }

  lemma XorWithin(x: nat, m: nat)
    requires x < m && exists w: nat :: m == Pow2(w)
    ensures Xor(x, m - 1) == m - 1 - x
  {
    var w: nat :| m == Pow2(w);
    XorOnes(x, w);
  }

  /** Numbers of small magnitude get small codes, signs alternating
      ("Signed Integers" in the Protocol Buffers encoding guide). */
  lemma ZigZagMeaning(v: int, m: nat)
    requires IsSigned(v, m) && m % 2 == 0 && exists w: nat :: m == Pow2(w)
    ensures EncodeZigZag(v, m) == if v >= 0 then 2 * v else -2 * v - 1
    ensures EncodeZigZag(v, m) < m
  {
    if v >= 0 {
      SmallMod(2 * v, m);
    } else {
      NegativeMod(2 * v, m);
      XorWithin(2 * v + m, m);
    }
  }

  lemma NegativeMod(x: int, m: nat)
    requires 0 <= x + m < m
    ensures x % m == x + m
  {
  }

  lemma UnZigZagMeaning(u: nat, m: nat)
    requires u < m && m % 2 == 0 && exists w: nat :: m == Pow2(w)
    ensures DecodeZigZag(u, m) == if u % 2 == 0 then u / 2 else -(u / 2) - 1
  {
    XorWithin(u / 2, m);
    assert Xor(u / 2, 0) == u / 2;
  }

  lemma ZigZagRoundTrip(v: int, m: nat)
    requires IsSigned(v, m) && m % 2 == 0 && exists w: nat :: m == Pow2(w)
    ensures EncodeZigZag(v, m) < m && DecodeZigZag(EncodeZigZag(v, m), m) == v
  {
    ZigZagMeaning(v, m);
    UnZigZagMeaning(EncodeZigZag(v, m), m);
  }

  /** Every word is the code of exactly one number. */
  lemma ZigZagOnto(u: nat, m: nat)
    requires u < m && m % 2 == 0 && exists w: nat :: m == Pow2(w)
    ensures IsSigned(DecodeZigZag(u, m), m) && EncodeZigZag(DecodeZigZag(u, m), m) == u
  {
    UnZigZagMeaning(u, m);
    ZigZagMeaning(DecodeZigZag(u, m), m);
  }

  // ----------------------------------------------------------- fixed width

  /** n bytes, least significant first. */
  function FixedBytes(v: nat, n: nat): (s: seq<byte>)
    ensures |s| == n
  {
    if n == 0 then [] else [v % 256] + FixedBytes(v / 256, n - 1)
  }

  function FixedValue(s: seq<byte>): nat {
    if s == [] then 0 else s[0] + 256 * FixedValue(s[1..])
  }

  lemma {:induction false} FixedRoundTrip(v: nat, n: nat)
    requires v < Pow2(8 * n)
    ensures FixedValue(FixedBytes(v, n)) == v
  {
    if n == 0 {
    } else {
      Pow2Scale(8, 8 * (n - 1));
      FixedRoundTrip(v / 256, n - 1);
    }
  }

  lemma {:induction false} FixedBytesAt(v: nat, n: nat, i: nat)
    requires i < n
    ensures FixedBytes(v, n)[i] == Shr(v, 8 * i) % 256
  {
    if i == 0 {
    } else {
      FixedBytesAt(v / 256, n - 1, i - 1);
      Pow2Scale(8, 8 * (i - 1));
      DivDiv(v, 256, Pow2(8 * (i - 1)));
    }
  }

  lemma DivDiv(v: nat, a: nat, b: nat)
    requires a > 0 && b > 0
    ensures a * b > 0 && v / a / b == v / (a * b)
  {
    var h, t := v / a / b, v / a % b;
    DivDivSplit(v, a, b, v / a, v % a, h, t);
    assert a * t + v % a < a * b by { MulBound(a, b, t); }
    DivModUnique(v, a * b, h, a * t + v % a);
  }

  lemma DivDivSplit(v: nat, a: nat, b: nat, q: nat, r: nat, h: nat, t: nat)
    requires v == a * q + r && q == b * h + t
    ensures v == a * b * h + (a * t + r)
  {
    Distribute(a, b, h, t);
  }

  lemma Distribute(a: nat, b: nat, h: nat, t: nat)
    ensures a * (b * h + t) == a * b * h + a * t
  {
  }

  lemma MulBound(a: nat, b: nat, t: nat)
    requires t < b
    ensures a * t + a <= a * b
  {
    assert a * (t + 1) <= a * b;
  }

  lemma {:induction false} FixedAppend(s: seq<byte>, b: byte)
    ensures FixedValue(s + [b]) == FixedValue(s) + b * Pow2(8 * |s|)
  {
    if s == [] {
    } else {
      var p := Pow2(8 * (|s| - 1));
      assert Pow2(8 * |s|) == 256 * p by { Pow2Scale(8, 8 * (|s| - 1)); }
      FixedAppend(s[1..], b);
      assert (s + [b])[1..] == s[1..] + [b];
      Swap(256, b, p);
    }
  }

  lemma Pow2Scale(a: nat, b: nat)
    ensures a == 8 ==> Pow2(a + b) == 256 * Pow2(b)
    ensures a == 7 ==> Pow2(a + b) == 128 * Pow2(b)
  {
    Pow2Add(a, b);
    Pow2Seven();
  }

  lemma {:induction false} FixedBound(s: seq<byte>)
    ensures FixedValue(s) < Pow2(8 * |s|)
  {
    if s == [] {
    } else {
      FixedBound(s[1..]);
      Pow2Scale(8, 8 * (|s| - 1));
    }
  }

  /** One term of the decoding expression: byte i or-ed in at bit 8i of an n-byte word. */
  lemma FixedOr(s: seq<byte>, b: byte, n: nat)
    requires |s| < n
    ensures Or(FixedValue(s), Shl(b, 8 * |s|, Pow2(8 * n))) == FixedValue(s + [b])
  {
    var m, x := Pow2(8 * n), FixedValue(s + [b]);
    assert FixedValue(s) + b * Pow2(8 * |s|) == x by { FixedAppend(s, b); }
    assert Or(FixedValue(s), Shl(b, 8 * |s|, m)) == x % m by {
      FixedBound(s);
      OrShifted(FixedValue(s), b, 8 * |s|, 8 * n, m);
    }
    assert x < m by {
      FixedBound(s + [b]);
      Pow2Monotone(8 * |s + [b]|, 8 * n);
    }
    SmallMod(x, m);
  }

  method EncodeFixed(buf: array<byte>, start: nat, v: nat, n: nat) returns (p: nat)
    requires start + n <= buf.Length
    modifies buf
    ensures p == start + n
    ensures buf[start..p] == FixedBytes(v, n)
    ensures buf[..start] == old(buf[..start]) && buf[p..] == old(buf[..])[p..]
  {
    for i := 0 to n
      invariant forall j :: 0 <= j < i ==> buf[start + j] == FixedBytes(v, n)[j]
      invariant forall j :: 0 <= j < buf.Length && !(start <= j < start + i) ==> buf[j] == old(buf[j])
    {
      FixedBytesAt(v, n, i);
      buf[start + i] := Shr(v, 8 * i) % 256;
    }
    p := start + n;
  }

  method DecodeFixed(buf: array<byte>, start: nat, end: nat, n: nat) returns (ok: bool, p: nat, v: nat)
    requires start <= end <= buf.Length
    ensures ok <==> start + n <= end
    ensures p == if ok then start + n else start
    ensures ok ==> v == FixedValue(buf[start..start + n])
  {
    v := 0;
    if start + n <= end {
      for i := 0 to n
        invariant v == FixedValue(buf[start..start + i])
      {
        FixedOr(buf[start..start + i], buf[start + i], n);
        assert buf[start..start + i] + [buf[start + i]] == buf[start..start + i + 1];
        v := Or(v, Shl(buf[start + i], 8 * i, Pow2(8 * n)));
      }
      return true, start + n, v;
    }
    return false, start, v;
  }

  // --------------------------------------------------------------- strings

  method EncodeString(buf: array<byte>, start: nat, str: seq<byte>) returns (p: nat)
    requires start + |Varint(|str|)| + |str| <= buf.Length
    modifies buf
    ensures p == start + |Varint(|str|)| + |str|
    ensures buf[start..p] == Varint(|str|) + str
    ensures buf[..start] == old(buf[..start]) && buf[p..] == old(buf[..])[p..]
  {
    var q := EncodeVarint(buf, start, |str|);
    label lengthDone:
    for i := 0 to |str|
      invariant forall j :: 0 <= j < i ==> buf[q + j] == str[j]
      invariant forall j :: 0 <= j < buf.Length && !(q <= j < q + i) ==> buf[j] == old@lengthDone(buf[j])
    {
      buf[q + i] := str[i];
    }
    p := q + |str|;
    assert buf[start..q] == old@lengthDone(buf[start..q]);
    assert buf[start..p] == buf[start..q] + buf[q..p];
    OldTail(old@lengthDone(buf[..]), old(buf[..]), start, q);
    Frame(buf[..], old(buf[..]), start, p);
  }

  lemma Frame(a: seq<byte>, b: seq<byte>, start: nat, p: nat)
    requires |a| == |b| && start <= p <= |a|
    requires forall j :: 0 <= j < |a| && !(start <= j < p) ==> a[j] == b[j]
    ensures a[..start] == b[..start] && a[p..] == b[p..]
  {
  }

  lemma OldTail(a: seq<byte>, b: seq<byte>, start: nat, q: nat)
    requires |a| == |b| && start <= q <= |a| && a[..start] == b[..start] && a[q..] == b[q..]
    ensures forall j :: 0 <= j < |a| && !(start <= j < q) ==> a[j] == b[j]
  {
    forall j | 0 <= j < |a| && !(start <= j < q)
      ensures a[j] == b[j]
    {
      if j < start {
        assert a[..start][j] == b[..start][j];
      } else {
        assert a[q..][j - q] == b[q..][j - q];
      }
    }
  }

  /** A StrView into a buffer: where it starts and how long it is. */
  datatype View = View(at: nat, len: nat)

  /** The bytes at address a announce a string whose end is not a 64-bit address. */
  predicate LengthWraps(s: seq<byte>, a: nat) {
    var d := DecodedVarint(s, 10, TWO64);
    d.Some? && a + d.value.len + d.value.word >= TWO64
  }

  /** The pointer comparison buf + len > end is the intended one exactly if the sum does not wrap. */
  lemma EndTest(a: nat, len: nat, end: nat)
    requires a <= end < TWO64 && len < TWO64
    ensures a + len < TWO64 <==> ((a + len) % TWO64 <= end <==> a + len <= end)
    ensures a + len >= TWO64 ==> (a + len) % TWO64 < a
  {
  }

  /** Which lengths wrap. */
  lemma WrappingLengths(len: nat, rest: seq<byte>, a: nat)
    requires len < TWO64
    ensures LengthWraps(Varint(len) + rest, a) <==> a + |Varint(len)| + len >= TWO64
  {
    VarintSizes(len);
    VarintRoundTrip(len, rest, 10, TWO64);
  }

  /** base is the address of buf. A length that wraps is always accepted: the view then reaches past
      the end, and the read position goes back instead of on. */
  method DecodeString(buf: array<byte>, start: nat, end: nat, base: nat) returns (ok: bool, p: int, view: View)
    requires start <= end <= buf.Length && base + buf.Length < TWO64
    ensures var d := DecodedVarint(buf[start..end], 10, TWO64);
            ok <==> d.Some? && (LengthWraps(buf[start..end], base + start) || start + d.value.len + d.value.word <= end)
    ensures ok ==>
              var d := DecodedVarint(buf[start..end], 10, TWO64).value;
              && view == View(start + d.len, d.word)
              && p == view.at + view.len - (if LengthWraps(buf[start..end], base + start) then TWO64 else 0)
    ensures !ok ==> start <= p <= end
  {
    var len;
    view := View(0, 0);
    ok, p, len := DecodeVarint(buf, start, end);
    if !ok {
      return;
    }
    EndTest(base + p, len, base + end);
    var sum := (base + p + len) % TWO64;
    if sum > base + end {
      return false, p, view;
    }
    view := View(p, len);
    p := sum - base;
  }
}
