/** The serializer: Packer and Unpacker over a BlockBuffer
    (src/pack.cpp, src/unpack.cpp, src/buffer.cpp). */
module Packing {
  import opened Bits
  import opened Collections
  import opened Coding

  // ------------------------------------------------------- values and bytes

  datatype Width = W16 | W32 | W64 {
    function Bytes(): nat { match this case W16 => 2 case W32 => 4 case W64 => 8 }
    function MaxVarint(): nat {
      match this case W16 => MAX_V16_SIZE case W32 => MAX_V32_SIZE case W64 => MAX_V64_SIZE
    }
    function Size(): nat { match this case W16 => TWO16 case W32 => TWO32 case W64 => TWO64 }
  }

  /** One constructor per group of Pack overloads; float and double are their bit patterns. */
  datatype Type = Bool | Int8 | UInt8 | Int(w: Width) | UInt(w: Width) | Fixed(w: Width) | String

  datatype Value =
    | VBool(b: bool)
    | VInt8(i: int)
    | VUInt8(u: nat)
    | VInt(w: Width, i: int)
    | VUInt(w: Width, u: nat)
    | VFixed(w: Width, u: nat)
    | VString(s: seq<byte>)

  function TypeOf(v: Value): Type {
    match v
    case VBool(_) => Bool
    case VInt8(_) => Int8
    case VUInt8(_) => UInt8
    case VInt(w, _) => Int(w)
    case VUInt(w, _) => UInt(w)
    case VFixed(w, _) => Fixed(w)
    case VString(_) => String
  }

  /** The value fits its C++ type; a string is short enough for the three bytes
      that Pack reserves for its length. */
  predicate Packable(v: Value) {
    match v
    case VBool(_) => true
    case VInt8(i) => IsSigned(i, 256)
    case VUInt8(u) => u < 256
    case VInt(w, i) => IsSigned(i, w.Size())
    case VUInt(w, u) => u < w.Size()
    case VFixed(w, u) => u < w.Size()
    case VString(s) => |s| < 0x20_0000
  }

  /** The code of a signed number. */
  function ZigZag(i: int): nat {
    if i >= 0 then 2 * i else -2 * i - 1
  }

  /** The bytes of a value on the wire. */
  function Encoding(v: Value): seq<byte>
    requires Packable(v)
  {
    match v
    case VBool(b) => [if b then 1 else 0]
    case VInt8(i) => [i % 256]
    case VUInt8(u) => [u]
    case VInt(w, i) => Varint(ZigZag(i))
    case VUInt(_, u) => Varint(u)
    case VFixed(w, u) => FixedBytes(u, w.Bytes())
    case VString(s) => Varint(|s|) + s
  }

  /** The room Pack makes sure of before it writes. */
  function Room(v: Value): nat {
    match v
    case VBool(_) => 1
    case VInt8(_) => 1
    case VUInt8(_) => 1
    case VInt(w, _) => w.MaxVarint()
    case VUInt(w, _) => w.MaxVarint()
    case VFixed(w, _) => w.Bytes()
    case VString(s) => MAX_V16_SIZE + |s|
  }

  lemma WordSize(w: Width)
    ensures w.Size() % 2 == 0 && exists n: nat :: w.Size() == Pow2(n)
    ensures w.Size() == Pow2(8 * w.Bytes())
  {
    Pow2Values();
  }

  /** What is written never outgrows the room, and is never empty. */
  lemma EncodingFits(v: Value)
    requires Packable(v)
    ensures 0 < |Encoding(v)| <= Room(v) < TWO32
  {
    match v
    case VInt(w, i) =>
      VarintSizes(ZigZag(i));
    case VUInt(w, u) => VarintSizes(u);
    case VString(s) => VarintSizes(|s|);
    case _ =>
  }

  /** What a reader asking for type ty finds at the start of s, and how many bytes it takes. */
  function Decoded(ty: Type, s: seq<byte>): Option<(Value, nat)> {
    match ty
    case Bool => if s == [] then None else Some((VBool(s[0] != 0), 1))
    case Int8 => if s == [] then None else Some((VInt8(Signed(s[0], 256)), 1))
    case UInt8 => if s == [] then None else Some((VUInt8(s[0]), 1))
    case Fixed(w) =>
      if |s| < w.Bytes() then None else Some((VFixed(w, FixedValue(s[..w.Bytes()])), w.Bytes()))
    case _ =>
      match DecodedVarint(s, 10, TWO64)
      case None => None
      case Some(d) => Unfolded(ty, s, d)
  }

  function Unfolded(ty: Type, s: seq<byte>, d: Read): Option<(Value, nat)> {
    match ty
    case UInt(w) => Some((VUInt(w, d.word % w.Size()), d.len))
    case Int(w) => WordSize(w); Some((VInt(w, DecodeZigZag(d.word % w.Size(), w.Size())), d.len))
    case _ =>
      if d.len + d.word > |s| then None
      else Some((VString(s[d.len..d.len + d.word]), d.len + d.word))
  }

  /** Reading with the type that was written gives the value back, whatever follows. */
  lemma DecodeEncode(v: Value, rest: seq<byte>)
    requires Packable(v)
    ensures Decoded(TypeOf(v), Encoding(v) + rest) == Some((v, |Encoding(v)|))
  {
    var s := Encoding(v) + rest;
    match v
    case VInt(w, i) => SignedBack(i, w, rest);
    case VUInt(w, u) => VarintBack(u, w, rest);
    case VFixed(w, u) => FixedBack(u, w, rest);
    case VString(str) => StringBack(str, rest);
    case _ =>
  }

  lemma SignedBack(i: int, w: Width, rest: seq<byte>)
    requires IsSigned(i, w.Size())
    ensures Decoded(Int(w), Varint(ZigZag(i)) + rest) == Some((VInt(w, i), |Varint(ZigZag(i))|))
  {
    WordSize(w);
    ZigZagMeaning(i, w.Size());
    ZigZagRoundTrip(i, w.Size());
    VarintBack(ZigZag(i), w, rest);
  }

  lemma FixedBack(u: nat, w: Width, rest: seq<byte>)
    requires u < w.Size()
    ensures Decoded(Fixed(w), FixedBytes(u, w.Bytes()) + rest) == Some((VFixed(w, u), w.Bytes()))
  {
    WordSize(w);
    FixedRoundTrip(u, w.Bytes());
    assert (FixedBytes(u, w.Bytes()) + rest)[..w.Bytes()] == FixedBytes(u, w.Bytes());
  }

  lemma StringBack(str: seq<byte>, rest: seq<byte>)
    requires |str| < 0x20_0000
    ensures Decoded(String, Varint(|str|) + str + rest) == Some((VString(str), |Varint(|str|) + str|))
  {
    var head := Varint(|str|);
    var s := head + str + rest;
    VarintSizes(|str|);
    assert s == head + (str + rest);
    VarintRoundTrip(|str|, str + rest, 10, TWO64);
    assert s[|head|..|head| + |str|] == str;
  }

  lemma VarintBack(u: nat, w: Width, rest: seq<byte>)
    requires u < w.Size()
    ensures DecodedVarint(Varint(u) + rest, 10, TWO64) == Some(Read(|Varint(u)|, u))
    ensures u % w.Size() == u
  {
    VarintSizes(u);
    VarintRoundTrip(u, rest, 10, TWO64);
    SmallMod(u, w.Size());
  }

  /** Every byte reads as a value of each one-byte type. */
  lemma ByteRead(b: byte, rest: seq<byte>)
    ensures Decoded(Bool, [b] + rest) == Some((VBool(b != 0), 1))
    ensures Decoded(UInt8, [b] + rest) == Some((VUInt8(b), 1))
    ensures Decoded(Int8, [b] + rest) == Some((VInt8(if b < 128 then b else b - 256), 1))
  {
  }

  /** Read as a narrower type a number is cut to its low bits. */
  lemma NarrowRead(u: nat, w: Width, rest: seq<byte>)
    requires u < TWO64
    ensures Decoded(UInt(w), Varint(u) + rest) == Some((VUInt(w, u % w.Size()), |Varint(u)|))
    ensures exists n: nat :: w.Size() == Pow2(n)
    ensures Decoded(Int(w), Varint(u) + rest) ==
            Some((VInt(w, DecodeZigZag(u % w.Size(), w.Size())), |Varint(u)|))
  {
    assert |Varint(u)| <= 10 by { VarintSizes(u); }
    VarintRoundTrip(u, rest, 10, TWO64);
    CutTo(Varint(u) + rest, |Varint(u)|, u, w);
  }

  lemma CutTo(s: seq<byte>, n: nat, u: nat, w: Width)
    requires DecodedVarint(s, 10, TWO64) == Some(Read(n, u))
    ensures Decoded(UInt(w), s) == Some((VUInt(w, u % w.Size()), n))
    ensures exists k: nat :: w.Size() == Pow2(k)
    ensures Decoded(Int(w), s) == Some((VInt(w, DecodeZigZag(u % w.Size(), w.Size())), n))
  {
    WordSize(w);
    assert Decoded(UInt(w), s) == Unfolded(UInt(w), s, Read(n, u));
    assert Decoded(Int(w), s) == Unfolded(Int(w), s, Read(n, u));
  }

  /** The bytes on the wire: one byte for the small types, LEB128 of the number or of its zigzag code
      for the others, little-endian for the fixed ones, length and bytes for a string. */
  lemma WireFormat(v: Value)
    requires Packable(v)
    ensures v.VBool? ==> Encoding(v) == [if v.b then 1 else 0]
    ensures v.VUInt8? ==> Encoding(v) == [v.u]
    ensures v.VInt8? ==> |Encoding(v)| == 1 && Signed(Encoding(v)[0], 256) == v.i
    ensures v.VUInt? ==> LebValue(Encoding(v)) == v.u
    ensures v.VUInt? ==> forall k: nat :: k > 0 && v.u < Pow2(7 * k) ==> |Encoding(v)| <= k
    ensures v.VInt? ==> LebValue(Encoding(v)) == EncodeZigZag(v.i, v.w.Size())
    ensures v.VFixed? ==> |Encoding(v)| == v.w.Bytes() && FixedValue(Encoding(v)) == v.u
    ensures v.VString? ==> Encoding(v) == Varint(|v.s|) + v.s
  {
    match v
    case VUInt(_, u) =>
      VarintValue(u);
      forall k: nat | k > 0 && u < Pow2(7 * k)
        ensures |Encoding(v)| <= k
      {
        VarintLength(u, k);
      }
    case VInt(w, i) =>
      WordSize(w);
      ZigZagMeaning(i, w.Size());
      VarintValue(ZigZag(i));
    case VFixed(w, u) =>
      WordSize(w);
      FixedRoundTrip(u, w.Bytes());
    case _ =>
  }

  /** The room is no larger than the longest encoding of the type needs. */
  lemma RoomTight(v: Value) returns (x: Value)
    requires Packable(v)
    ensures v.VString? ==> Room(v) == MAX_V16_SIZE + |v.s|
    ensures !v.VString? ==> Packable(x) && TypeOf(x) == TypeOf(v) && |Encoding(x)| == Room(v)
  {
    x := v;
    match v
    case VUInt(w, _) =>
      LongestVarint(w);
      x := VUInt(w, w.Size() - 1);
    case VInt(w, _) =>
      LongestVarint(w);
      x := VInt(w, -(w.Size() / 2));
    case _ =>
  }

  lemma LongestVarint(w: Width)
    ensures |Varint(w.Size() - 1)| == w.MaxVarint()
  {
    Pow2Values();
    VarintSizes(w.Size() - 1);
    VarintLength(w.Size() - 1, w.MaxVarint() - 1);
  }

  /** Stores a value at buf[start..], as the overloads of Pack do. */
  method WriteValue(buf: array<byte>, start: nat, v: Value) returns (p: nat)
    requires Packable(v) && start + |Encoding(v)| <= buf.Length
    modifies buf
    ensures p == start + |Encoding(v)|
    ensures buf[start..p] == Encoding(v)
    ensures buf[..start] == old(buf[..start]) && buf[p..] == old(buf[..])[p..]
  {
    match v
    case VBool(b) => p := WriteByte(buf, start, if b then 1 else 0);
    case VInt8(i) => p := WriteByte(buf, start, i % 256);
    case VUInt8(u) => p := WriteByte(buf, start, u);
    case VInt(w, i) =>
      WordSize(w);
      ZigZagMeaning(i, w.Size());
      p := EncodeVarint(buf, start, EncodeZigZag(i, w.Size()));
    case VUInt(w, u) => p := EncodeVarint(buf, start, u);
    case VFixed(w, u) => p := EncodeFixed(buf, start, u, w.Bytes());
    case VString(s) => p := EncodeString(buf, start, s);
  }

  method WriteByte(buf: array<byte>, start: nat, b: byte) returns (p: nat)
    requires start < buf.Length
    modifies buf
    ensures p == start + 1
    ensures buf[start..p] == [b]
    ensures buf[..start] == old(buf[..start]) && buf[p..] == old(buf[..])[p..]
  {
    buf[start] := b;
    p := start + 1;
  }

  method ReadByte(buf: array<byte>, start: nat, end: nat) returns (ok: bool, p: nat, u: byte)
    requires start <= end <= buf.Length
    ensures ok <==> start < end
    ensures p == if ok then start + 1 else start
    ensures ok ==> u == buf[start]
  {
    var x;
    u := 0;
    ok, p, x := DecodeFixed(buf, start, end, 1);
    if ok {
      assert buf[start..p] == [buf[start]];
      SingleByte(buf[start]);
      u := x;
    }
  }

  /** A string whose announced length wraps has no bytes to give. */
  lemma WrapsMeansNone(s: seq<byte>, a: nat)
    requires LengthWraps(s, a) && a + |s| < TWO64
    ensures Decoded(String, s) == None
  {
  }

  /** base is the address of buf. */
  method ReadString(buf: array<byte>, start: nat, end: nat, base: nat) returns (ok: bool, p: int, str: seq<byte>)
    requires start <= end <= buf.Length && base + buf.Length < TWO64
    ensures LengthWraps(buf[start..end], base + start) ==>
              && ok && Decoded(String, buf[start..end]) == None
              && var d := DecodedVarint(buf[start..end], 10, TWO64).value;
                 p == start + d.len + d.word - TWO64
    ensures !LengthWraps(buf[start..end], base + start) ==>
              && start <= p <= end
              && (ok <==> Decoded(String, buf[start..end]).Some?)
              && (ok ==> Decoded(String, buf[start..end]) == Some((VString(str), p - start)))
  {
    ghost var s := buf[start..end];
    var view;
    str := [];
    ok, p, view := DecodeString(buf, start, end, base);
    if LengthWraps(buf[start..end], base + start) {
      WrapsMeansNone(buf[start..end], base + start);
    } else if ok {
      str := buf[view.at..view.at + view.len];
      Slice(buf, start, end, view.at - start, p - start);
    }
  }

  lemma Slice(buf: array<byte>, start: nat, end: nat, i: nat, j: nat)
    requires start <= end <= buf.Length && i <= j <= end - start
    ensures buf[start..end][i..j] == buf[start + i..start + j]
  {
    var s := buf[start..end];
    assert forall k :: 0 <= k < j - i ==> s[i..j][k] == s[i + k] == buf[start + i + k];
  }

  /** Reads a value of type ty from buf[start..end], as the overloads of Unpack do; base is the
      address of buf. Only a string length that wraps is accepted against the reference decoder. */
  method ReadValue(buf: array<byte>, start: nat, end: nat, ty: Type, base: nat) returns (ok: bool, p: int, v: Value)
    requires start <= end <= buf.Length && base + buf.Length < TWO64
    ensures ty.String? && LengthWraps(buf[start..end], base + start) ==>
              && ok && Decoded(ty, buf[start..end]) == None
              && var d := DecodedVarint(buf[start..end], 10, TWO64).value;
                 p == start + d.len + d.word - TWO64
    ensures !(ty.String? && LengthWraps(buf[start..end], base + start)) ==>
              && start <= p <= end
              && (ok <==> Decoded(ty, buf[start..end]).Some?)
              && (ok ==> Decoded(ty, buf[start..end]) == Some((v, p - start)))
  {
    match ty
    case String =>
      var str;
      ok, p, str := ReadString(buf, start, end, base);
      v := VString(str);
    case _ =>
      ok, p, v := ReadNumber(buf, start, end, ty);
  }

  method ReadNumber(buf: array<byte>, start: nat, end: nat, ty: Type) returns (ok: bool, p: nat, v: Value)
    requires start <= end <= buf.Length && !ty.String?
    ensures start <= p <= end
    ensures ok <==> Decoded(ty, buf[start..end]).Some?
    ensures ok ==> Decoded(ty, buf[start..end]) == Some((v, p - start))
  {
    if ty.Int? || ty.UInt? {
      ok, p, v := ReadVarint(buf, start, end, ty);
    } else if ty.Fixed? {
      var u;
      ok, p, u := DecodeFixed(buf, start, end, ty.w.Bytes());
      if ok { Slice(buf, start, end, 0, ty.w.Bytes()); }
      v := VFixed(ty.w, if ok then u else 0);
    } else {
      var u;
      ok, p, u := ReadByte(buf, start, end);
      assert ok ==> u == buf[start..end][0];
      v := if ty.Bool? then VBool(u != 0) else if ty.Int8? then VInt8(Signed(u, 256)) else VUInt8(u);
    }
  }

  method ReadVarint(buf: array<byte>, start: nat, end: nat, ty: Type) returns (ok: bool, p: nat, v: Value)
    requires start <= end <= buf.Length && (ty.Int? || ty.UInt?)
    ensures start <= p <= end
    ensures ok <==> Decoded(ty, buf[start..end]).Some?
    ensures ok ==> Decoded(ty, buf[start..end]) == Some((v, p - start))
  {
    var u: nat;
    ok, p, u := DecodeVarint(buf, start, end);
    if !ok {
      return ok, p, VUInt8(0);
    }
    assert Decoded(ty, buf[start..end]) == Unfolded(ty, buf[start..end], Read(p - start, u));
    WordSize(ty.w);
    var word := u % ty.w.Size();
    v := if ty.Int? then VInt(ty.w, DecodeZigZag(word, ty.w.Size())) else VUInt(ty.w, word);
  }

  lemma SingleByte(b: byte)
    ensures FixedValue([b]) == b
  {
  }

  // ----------------------------------------------------------- block buffer

  /** addr is where the heap has placed buf. */
  datatype Block = Block(buf: array<byte>, addr: nat, capacity: nat, size: nat)

  function CapacityFor(size: nat, blockSize: nat): nat {
    if size <= blockSize then blockSize else AlignUp(size, 4096)
  }

  /** Free sends a block back to the pool when its capacity is the pool's block size:
      this holds exactly for the blocks that came from the pool. */
  lemma CapacityTellsOrigin(size: nat, blockSize: nat)
    ensures CapacityFor(size, blockSize) >= size
    ensures CapacityFor(size, blockSize) == blockSize <==> size <= blockSize
    ensures size > blockSize ==> CapacityFor(size, blockSize) % 4096 == 0 && CapacityFor(size, blockSize) < size + 4096
  {
  }

  /** Packing a string of this length writes past the end of the block it goes to,
      starting from a block of the given size and capacity. */
  predicate Overruns(size: nat, capacity: nat, blockSize: nat, len: nat) {
    var room := MAX_V16_SIZE + len;
    if size + room > capacity
    then |Varint(len)| + len > CapacityFor(room, blockSize)
    else size + |Varint(len)| + len > capacity
  }

  lemma StringFits(size: nat, capacity: nat, blockSize: nat, len: nat)
    requires len < 0x20_0000 && size <= capacity
    ensures !Overruns(size, capacity, blockSize, len)
  {
    VarintSizes(len);
    CapacityTellsOrigin(MAX_V16_SIZE + len, blockSize);
  }

  lemma StringOverrun(len: nat) returns (size: nat, capacity: nat)
    requires len >= 0x20_0000
    ensures size <= capacity && capacity % 4096 == 0 && Overruns(size, capacity, capacity, len)
  {
    VarintSizes(len);
    capacity := AlignUp(MAX_V16_SIZE + len, 4096);
    size := capacity - MAX_V16_SIZE - len;
  }

  /** Three bytes for the length are enough exactly for the strings shorter than 2^21 bytes. */
  lemma StringRoom(len: nat)
    ensures len < 0x20_0000 <==>
            forall size: nat, capacity: nat, blockSize: nat ::
              size <= capacity && capacity % 4096 == 0 ==> !Overruns(size, capacity, blockSize, len)
  {
    if len < 0x20_0000 {
      forall size: nat, capacity: nat, blockSize: nat | size <= capacity && capacity % 4096 == 0
        ensures !Overruns(size, capacity, blockSize, len)
      {
        StringFits(size, capacity, blockSize, len);
      }
    } else {
      var size, capacity := StringOverrun(len);
    }
  }

  predicate BlockOk(b: Block) {
    b.buf.Length == b.capacity && b.size <= b.capacity && b.addr + b.capacity < TWO64
  }

  class BlockBuffer {
    const m_block_size: nat
    var m_blocks: seq<Block>

    constructor (blockSize: nat)
      requires blockSize < TWO32
      ensures Valid() && m_block_size == blockSize && m_blocks == []
    {
      m_block_size, m_blocks := blockSize, [];
    }

    ghost function Bufs(): set<array<byte>>
      reads this
    {
      set i | 0 <= i < |m_blocks| :: m_blocks[i].buf
    }

    ghost predicate Valid()
      reads this
    {
      && m_block_size < TWO32
      && (forall i :: 0 <= i < |m_blocks| ==> BlockOk(m_blocks[i]))
      && (forall i, j :: 0 <= i < j < |m_blocks| ==> m_blocks[i].buf != m_blocks[j].buf)
    }

    /** The bytes written so far, block by block. */
    ghost function Contents(): (c: seq<seq<byte>>)
      requires Valid()
      reads this, Bufs()
      ensures |c| == |m_blocks|
      ensures forall i :: 0 <= i < |c| ==> c[i] == m_blocks[i].buf[..m_blocks[i].size]
    {
      seq(|m_blocks|, i requires Valid() && 0 <= i < |m_blocks| reads this, Bufs() =>
        assert m_blocks[i].buf in Bufs(); m_blocks[i].buf[..m_blocks[i].size])
    }

    method Alloc(size: nat)
      requires Valid() && size < TWO32
      modifies this
      ensures Valid()
      ensures |m_blocks| == |old(m_blocks)| + 1 && m_blocks[..|old(m_blocks)|] == old(m_blocks)
      ensures var b := m_blocks[|old(m_blocks)|];
              fresh(b.buf) && b.capacity == CapacityFor(size, m_block_size) && b.size == 0
      ensures Bufs() == old(Bufs()) + {m_blocks[|old(m_blocks)|].buf}
      ensures Contents() == old(Contents()) + [[]]
    {
      var capacity := CapacityFor(size, m_block_size);
      assert 0 + capacity < TWO64;
      var buf := new byte[capacity];
      ghost var before := m_blocks;
      var addr: nat :| addr + capacity < TWO64;
      m_blocks := m_blocks + [Block(buf, addr, capacity, 0)];
      assert forall i :: 0 <= i < |before| ==> m_blocks[i] == before[i];
    }

    /** Writes a value behind the counted bytes of block k. */
    method WriteAt(k: nat, at: nat, v: Value) returns (ptr: nat)
      requires Valid() && k < |m_blocks| && Packable(v)
      requires m_blocks[k].size <= at && at + |Encoding(v)| <= m_blocks[k].capacity
      modifies m_blocks[k].buf
      ensures Valid() && Contents() == old(Contents())
      ensures ptr == at + |Encoding(v)| && m_blocks[k].buf[at..ptr] == Encoding(v)
    {
      var b := m_blocks[k];
      ptr := WriteValue(b.buf, at, v);
      forall i | 0 <= i < |m_blocks|
        ensures m_blocks[i].buf[..m_blocks[i].size] == old(m_blocks[i].buf[..m_blocks[i].size])
      {
        if i == k {
          assert b.buf[..b.size] == b.buf[..at][..b.size];
        } else {
          assert m_blocks[i].buf != b.buf;
        }
      }
    }

    /** Counts n more bytes of block k as written. */
    method Grow(k: nat, n: nat)
      requires Valid() && k < |m_blocks| && m_blocks[k].size + n <= m_blocks[k].capacity
      modifies this
      ensures Valid() && Bufs() == old(Bufs())
      ensures m_blocks == old(m_blocks)[k := old(m_blocks)[k].(size := old(m_blocks)[k].size + n)]
      ensures var b := m_blocks[k];
              Contents() == old(Contents())[k := old(Contents())[k] + b.buf[b.size - n..b.size]]
    {
      var b := m_blocks[k];
      ghost var before := m_blocks;
      m_blocks := m_blocks[k := b.(size := b.size + n)];
      assert forall i :: 0 <= i < |before| ==> m_blocks[i].buf == before[i].buf;
      assert b.buf[..b.size + n] == b.buf[..b.size] + b.buf[b.size..b.size + n];
    }
  }

  // ------------------------------------------- how values lie in the blocks

  function Flatten<T>(groups: seq<seq<T>>): seq<T> {
    if groups == [] then [] else groups[0] + Flatten(groups[1..])
  }

  lemma {:induction false} FlattenSnoc<T>(groups: seq<seq<T>>, g: seq<T>)
    ensures Flatten(groups + [g]) == Flatten(groups) + g
  {
    if groups == [] {
      assert groups + [g] == [g];
    } else {
      FlattenSnoc(groups[1..], g);
      assert (groups + [g])[1..] == groups[1..] + [g];
    }
  }

  lemma FlattenLast<T>(groups: seq<seq<T>>, v: T)
    requires groups != []
    ensures var n := |groups| - 1;
            Flatten(groups[n := groups[n] + [v]]) == Flatten(groups) + [v]
  {
    var n := |groups| - 1;
    var front, g := groups[..n], groups[n];
    assert groups == front + [g];
    assert groups[n := g + [v]] == front + [g + [v]];
    FlattenSnoc(front, g);
    FlattenSnoc(front, g + [v]);
  }

  lemma AppendStep<T>(s: seq<T>, t: seq<T>)
    requires t != []
    ensures s + t == s + [t[0]] + t[1..]
  {
  }

  lemma AppendNone<T>(s: seq<T>, t: seq<T>)
    requires t == []
    ensures s + t == s
  {
  }

  predicate AllPackable(vs: seq<Value>) {
    forall i :: 0 <= i < |vs| ==> Packable(vs[i])
  }

  function Codes(vs: seq<Value>): (r: seq<seq<byte>>)
    requires AllPackable(vs)
    ensures |r| == |vs| && forall i :: 0 <= i < |vs| ==> r[i] == Encoding(vs[i])
  {
    seq(|vs|, i requires 0 <= i < |vs| => Encoding(vs[i]))
  }

  /** The bytes of the values one after the other. */
  function EncodeAll(vs: seq<Value>): seq<byte>
    requires AllPackable(vs)
  {
    Flatten(Codes(vs))
  }

  lemma EncodeAllCons(vs: seq<Value>)
    requires AllPackable(vs) && vs != []
    ensures EncodeAll(vs) == Encoding(vs[0]) + EncodeAll(vs[1..])
  {
    assert Codes(vs)[1..] == Codes(vs[1..]);
  }

  lemma EncodeAllSnoc(vs: seq<Value>, v: Value)
    requires AllPackable(vs) && Packable(v)
    ensures EncodeAll(vs + [v]) == EncodeAll(vs) + Encoding(v)
  {
    FlattenSnoc(Codes(vs), Encoding(v));
    assert Codes(vs + [v]) == Codes(vs) + [Encoding(v)];
  }

  /** Block i holds exactly the encodings of groups[i]: no value straddles two blocks. */
  predicate Laid(contents: seq<seq<byte>>, groups: seq<seq<Value>>) {
    && |groups| == |contents|
    && forall i :: 0 <= i < |groups| ==> AllPackable(groups[i]) && contents[i] == EncodeAll(groups[i])
  }

  /** Every block but possibly the first got a value. */
  predicate Dense(groups: seq<seq<Value>>) {
    forall i :: 1 <= i < |groups| ==> groups[i] != []
  }

  lemma LaidSnoc(contents: seq<seq<byte>>, groups: seq<seq<Value>>)
    requires Laid(contents, groups)
    ensures Laid(contents + [[]], groups + [[]])
  {
  }

  /** Writing one more value to the last block. */
  lemma LaidAppend(contents: seq<seq<byte>>, groups: seq<seq<Value>>, v: Value)
    requires groups != [] && Laid(contents, groups) && Dense(groups[..|groups| - 1]) && Packable(v)
    ensures var n := |groups| - 1;
            var groups' := groups[n := groups[n] + [v]];
            && Laid(contents[n := contents[n] + Encoding(v)], groups')
            && Dense(groups') && Flatten(groups') == Flatten(groups) + [v]
  {
    var n := |groups| - 1;
    var groups' := groups[n := groups[n] + [v]];
    assert Flatten(groups') == Flatten(groups) + [v] by { FlattenLast(groups, v); }
    assert EncodeAll(groups'[n]) == contents[n] + Encoding(v) by { EncodeAllSnoc(groups[n], v); }
    assert forall i :: 1 <= i < n ==> groups[i] == groups[..n][i];
  }

  class Packer {
    const m_block_buffer: BlockBuffer
    var m_block: nat            // index of the block being written
    var m_ptr: nat              // write position in it
    ghost var groups: seq<seq<Value>>

    /** The invariant that also holds right after a block has been added. */
    ghost predicate Writing()
      reads this, m_block_buffer, m_block_buffer.Bufs()
    {
      && m_block_buffer.Valid()
      && |m_block_buffer.m_blocks| > 0 && m_block == |m_block_buffer.m_blocks| - 1
      && m_ptr == m_block_buffer.m_blocks[m_block].size
      && Laid(m_block_buffer.Contents(), groups)
      && Dense(groups[..m_block])
    }

    ghost predicate Valid()
      reads this, m_block_buffer, m_block_buffer.Bufs()
    {
      Writing() && Dense(groups)
    }

    /** Everything packed so far, in order. */
    ghost function Values(): seq<Value>
      reads this
    {
      Flatten(groups)
    }

    constructor (buffer: BlockBuffer)
      requires buffer.Valid() && buffer.m_blocks == []
      modifies buffer
      ensures Valid() && m_block_buffer == buffer && Values() == []
      ensures fresh(m_block_buffer.Bufs())
    {
      m_block_buffer := buffer;
      buffer.Alloc(1);
      m_block, m_ptr, groups := 0, 0, [[]];
    }

    /** The number of blocks once there is the given room: one more exactly if the current block
        has less. */
    ghost function Blocks(room: nat): nat
      requires Writing()
      reads this, m_block_buffer, m_block_buffer.Bufs()
    {
      var b := m_block_buffer.m_blocks[m_block];
      |m_block_buffer.m_blocks| + (if b.capacity - b.size < room then 1 else 0)
    }

    method Reserve(room: nat)
      requires Valid() && room < TWO32
      modifies this, m_block_buffer
      ensures Writing() && Values() == old(Values())
      ensures m_ptr + room <= m_block_buffer.m_blocks[m_block].capacity
      ensures m_block > 0 && groups[m_block] == [] ==> m_block == old(m_block) + 1
      ensures fresh(m_block_buffer.Bufs() - old(m_block_buffer.Bufs()))
      ensures |m_block_buffer.m_blocks| == old(Blocks(room))
      ensures old(Blocks(room)) == old(|m_block_buffer.m_blocks|) ==>
                m_block_buffer.m_blocks == old(m_block_buffer.m_blocks)
    {
      var b := m_block_buffer.m_blocks[m_block];
      if b.size + room > b.capacity {
        AddBlock(room);
      }
    }

    /** Goes on in a new block with the given room. */
    method AddBlock(room: nat)
      requires Valid() && room < TWO32
      modifies this, m_block_buffer
      ensures Writing() && Values() == old(Values()) && m_block == old(m_block) + 1
      ensures |m_block_buffer.m_blocks| == old(|m_block_buffer.m_blocks|) + 1
      ensures m_ptr + room <= m_block_buffer.m_blocks[m_block].capacity
      ensures fresh(m_block_buffer.Bufs() - old(m_block_buffer.Bufs()))
    {
      m_block_buffer.Alloc(room);
      assert CapacityFor(room, m_block_buffer.m_block_size) >= room by {
        CapacityTellsOrigin(room, m_block_buffer.m_block_size);
      }
      m_block := |m_block_buffer.m_blocks| - 1;
      m_ptr := 0;
      assert Flatten(groups + [[]]) == Flatten(groups) by { FlattenSnoc(groups, []); }
      assert Laid(m_block_buffer.Contents(), groups + [[]]) by { LaidSnoc(old(m_block_buffer.Contents()), groups); }
      assert (groups + [[]])[..m_block] == groups;
      groups := groups + [[]];
    }

    /** Writes a value at the write position, without counting it yet. */
    method Emit(v: Value) returns (ptr: nat)
      requires Writing() && Packable(v)
      requires m_ptr + |Encoding(v)| <= m_block_buffer.m_blocks[m_block].capacity
      modifies m_block_buffer.m_blocks[m_block].buf
      ensures Writing()
      ensures ptr == m_ptr + |Encoding(v)|
      ensures m_block_buffer.m_blocks[m_block].buf[m_ptr..ptr] == Encoding(v)
    {
      ptr := m_block_buffer.WriteAt(m_block, m_ptr, v);
    }

    method Commit(ptr: nat, ghost v: Value)
      requires Writing() && Packable(v)
      requires m_ptr <= ptr <= m_block_buffer.m_blocks[m_block].capacity
      requires m_block_buffer.m_blocks[m_block].buf[m_ptr..ptr] == Encoding(v)
      modifies this, m_block_buffer
      ensures Valid() && Values() == old(Values()) + [v]
      ensures m_block_buffer.Bufs() == old(m_block_buffer.Bufs())
      ensures |m_block_buffer.m_blocks| == old(|m_block_buffer.m_blocks|)
    {
      LaidAppend(m_block_buffer.Contents(), groups, v);
      m_block_buffer.Grow(m_block, ptr - m_ptr);
      m_ptr := ptr;
      groups := groups[m_block := groups[m_block] + [v]];
      assert groups[..m_block] == old(groups)[..m_block];
    }

    method Pack(v: Value)
      requires Valid() && Packable(v)
      modifies this, m_block_buffer, m_block_buffer.Bufs()
      ensures Valid() && Values() == old(Values()) + [v]
      ensures fresh(m_block_buffer.Bufs() - old(m_block_buffer.Bufs()))
      ensures |m_block_buffer.m_blocks| == old(Blocks(Room(v)))
    {
      EncodingFits(v);
      Reserve(Room(v));
      var ptr := Emit(v);
      Commit(ptr, v);
    }

    method PackSeq(vs: seq<Value>)
      requires Valid() && AllPackable(vs)
      modifies this, m_block_buffer, m_block_buffer.Bufs()
      ensures Valid() && Values() == old(Values()) + vs
      ensures fresh(m_block_buffer.Bufs() - old(m_block_buffer.Bufs()))
      decreases |vs|
    {
      if vs != [] {
        Pack(vs[0]);
        ghost var bufs := m_block_buffer.Bufs();
        AppendStep(old(Values()), vs);
        PackSeq(vs[1..]);
        assert m_block_buffer.Bufs() - old(m_block_buffer.Bufs()) <=
               (m_block_buffer.Bufs() - bufs) + (bufs - old(m_block_buffer.Bufs()));
      } else {
        assert vs == [];
        AppendNone(old(Values()), vs);
      }
    }
  }

  class Unpacker {
    const m_block_buffer: BlockBuffer
    var m_block_buffer_idx: int
    var m_ptr: nat
    var m_buf_end: nat
    ghost const groups: seq<seq<Value>>
    ghost var left: seq<Value>      // the values not yet read from the current block

    ghost predicate Valid()
      reads this, m_block_buffer, m_block_buffer.Bufs()
    {
      && m_block_buffer.Valid() && Laid(m_block_buffer.Contents(), groups) && Dense(groups)
      && 0 <= m_block_buffer_idx && AllPackable(left) && m_ptr <= m_buf_end
      && (if m_block_buffer_idx < |groups|
          then m_buf_end == m_block_buffer.m_blocks[m_block_buffer_idx].size &&
               m_block_buffer.Contents()[m_block_buffer_idx][m_ptr..] == EncodeAll(left)
          else m_buf_end == 0 && left == [])
    }

    /** The values still to be read, in order. */
    ghost function Rest(): seq<Value>
      requires 0 <= m_block_buffer_idx
      reads this
    {
      left + Later(groups, m_block_buffer_idx)
    }

    constructor (buffer: BlockBuffer, ghost groups: seq<seq<Value>>)
      requires buffer.Valid() && Laid(buffer.Contents(), groups) && Dense(groups)
      ensures Valid() && m_block_buffer == buffer && Rest() == Flatten(groups)
    {
      m_block_buffer := buffer;
      this.groups := groups;
      m_block_buffer_idx, m_ptr, m_buf_end, left := -1, 0, 0, [];
      new;
      var _ := NextBlock();
      assert Later(groups, -1) == Flatten(groups) by {
        LaterIs(groups, -1);
        assert groups[0..] == groups;
      }
    }

    /** Steps to the next block; false when there is none. */
    method NextBlock() returns (ok: bool)
      requires m_block_buffer.Valid() && Laid(m_block_buffer.Contents(), groups) && Dense(groups)
      requires -1 <= m_block_buffer_idx
      modifies this
      ensures Valid()
      ensures m_block_buffer_idx == old(m_block_buffer_idx) + 1
      ensures ok <==> m_block_buffer_idx < |groups|
      ensures Rest() == Later(groups, old(m_block_buffer_idx))
      ensures ok && m_block_buffer_idx > 0 ==> left != []
    {
      m_block_buffer_idx := m_block_buffer_idx + 1;
      if m_block_buffer_idx >= |m_block_buffer.m_blocks| {
        m_buf_end := 0;
        m_ptr := m_buf_end;
        left := [];
        return false;
      }
      EnterBlock();
      return true;
    }

    method EnterBlock()
      requires m_block_buffer.Valid() && Laid(m_block_buffer.Contents(), groups) && Dense(groups)
      requires 0 <= m_block_buffer_idx < |groups|
      modifies `m_ptr, `m_buf_end, `left
      ensures Valid() && left == groups[m_block_buffer_idx]
    {
      var block := m_block_buffer.m_blocks[m_block_buffer_idx];
      m_ptr, m_buf_end := 0, block.size;
      left := groups[m_block_buffer_idx];
      ghost var content := m_block_buffer.Contents()[m_block_buffer_idx];
      assert content[0..] == content;
    }

    /** Reading with the types that were packed gives the values back one by one;
        after the last one every read fails. */
    method Unpack(ty: Type) returns (ok: bool, v: Value)
      requires Valid()
      requires Rest() != [] ==> ty == TypeOf(Rest()[0])
      modifies this
      ensures Valid()
      ensures ok <==> old(Rest()) != []
      ensures ok ==> v == old(Rest())[0]
      ensures Rest() == if ok then old(Rest())[1..] else []
    {
      v := VUInt8(0);
      ok := true;
      EmptyEncoding(left);
      Front(left, Later(groups, m_block_buffer_idx));
      if m_ptr >= m_buf_end {
        ok := NextBlock();
        if !ok {
          return;
        }
      }
      Front(left, Later(groups, m_block_buffer_idx));
      v := Take(ty);
    }

    /** Reads the first value left in the current block. */
    method Take(ty: Type) returns (v: Value)
      requires Valid() && left != [] && ty == TypeOf(left[0])
      modifies this
      ensures Valid() && m_block_buffer_idx == old(m_block_buffer_idx)
      ensures v == old(left)[0] && left == old(left)[1..]
    {
      var block := m_block_buffer.m_blocks[m_block_buffer_idx];
      ghost var content := m_block_buffer.Contents()[m_block_buffer_idx];
      assert block.buf[m_ptr..m_buf_end] == content[m_ptr..];
      var p;
      p, v := ReadFirst(block.buf, m_ptr, m_buf_end, ty, block.addr, left);
      assert content[p..] == block.buf[p..m_buf_end];
      m_ptr := p;
      left := left[1..];
    }
  }

  /** Reads the first of the values that the bytes hold. */
  method ReadFirst(buf: array<byte>, start: nat, end: nat, ty: Type, base: nat, ghost vs: seq<Value>)
      returns (p: nat, v: Value)
    requires start <= end <= buf.Length && base + buf.Length < TWO64
    requires vs != [] && AllPackable(vs) && buf[start..end] == EncodeAll(vs) && ty == TypeOf(vs[0])
    ensures start <= p <= end && v == vs[0] && buf[p..end] == EncodeAll(vs[1..])
  {
    ghost var n := FirstValue(vs, buf[start..end], base + start);
    var ok;
    ok, p, v := ReadValue(buf, start, end, ty, base);
    assert buf[p..end] == buf[start..end][n..];
  }

  /** The bytes of a list of values start with the first value, and the others follow. */
  lemma FirstValue(vs: seq<Value>, s: seq<byte>, a: nat) returns (n: nat)
    requires vs != [] && AllPackable(vs) && s == EncodeAll(vs) && a + |s| < TWO64
    ensures n <= |s| && Decoded(TypeOf(vs[0]), s) == Some((vs[0], n)) && s[n..] == EncodeAll(vs[1..])
    ensures !(TypeOf(vs[0]).String? && LengthWraps(s, a))
  {
    n := |Encoding(vs[0])|;
    EncodeAllCons(vs);
    DecodeEncode(vs[0], EncodeAll(vs[1..]));
    if TypeOf(vs[0]).String? && LengthWraps(s, a) {
      WrapsMeansNone(s, a);
    }
  }

  /** The values in the blocks after block i. */
  function Later(groups: seq<seq<Value>>, i: int): seq<Value>
    requires -1 <= i
    decreases |groups| - i
  {
    if i + 1 < |groups| then groups[i + 1] + Later(groups, i + 1) else []
  }

  lemma {:induction false} LaterIs(groups: seq<seq<Value>>, i: int)
    requires -1 <= i < |groups|
    ensures Later(groups, i) == Flatten(groups[i + 1..])
    decreases |groups| - i
  {
    if i + 1 == |groups| {
    } else {
      LaterIs(groups, i + 1);
      assert groups[i + 1..][1..] == groups[i + 2..];
    }
  }

  /** Only no values at all encode to no bytes. */
  lemma EmptyEncoding(vs: seq<Value>)
    requires AllPackable(vs)
    ensures EncodeAll(vs) == [] <==> vs == []
  {
    if vs != [] {
      EncodingFits(vs[0]);
      EncodeAllCons(vs);
    }
  }

  lemma Advance<T>(s: seq<T>, i: nat)
    requires i < |s|
    ensures s[..i + 1] == s[..i] + [s[i]] && s[..|s|] == s
    ensures s[i..] != [] && s[i..][0] == s[i] && s[i..][1..] == s[i + 1..]
  {
  }

  lemma Front<T>(s: seq<T>, t: seq<T>)
    ensures s == [] ==> s + t == t
    ensures s != [] ==> s + t != [] && (s + t)[0] == s[0] && (s + t)[1..] == s[1..] + t
  {
  }

  method PackAll(blockSize: nat, vs: seq<Value>) returns (buffer: BlockBuffer, ghost groups: seq<seq<Value>>)
    requires AllPackable(vs) && blockSize < TWO32
    ensures fresh(buffer) && fresh(buffer.Bufs()) && buffer.Valid()
    ensures Laid(buffer.Contents(), groups) && Dense(groups) && Flatten(groups) == vs
  {
    buffer := new BlockBuffer(blockSize);
    var packer := new Packer(buffer);
    packer.PackSeq(vs);
    groups := packer.groups;
    assert [] + vs == vs;
  }

  /** The whole journey: any values packed into fresh blocks of any size come back equal and in
      order, and one read more, of whatever type, fails. */
  method PackThenUnpack(blockSize: nat, vs: seq<Value>, extra: Type) returns (out: seq<Value>, more: bool)
    requires AllPackable(vs) && blockSize < TWO32
    ensures out == vs && !more
  {
    var buffer, groups := PackAll(blockSize, vs);
    var unpacker := new Unpacker(buffer, groups);
    out := [];
    for i := 0 to |vs|
      invariant unpacker.Valid() && fresh(unpacker)
      invariant out == vs[..i] && unpacker.Rest() == vs[i..]
    {
      Advance(vs, i);
      var ok, v := unpacker.Unpack(TypeOf(vs[i]));
      out := out + [v];
    }
    var none;
    more, none := unpacker.Unpack(extra);
  }
}
