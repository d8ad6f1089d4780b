/** The page checksum: CPython's reflected CRC-32 made to compute Ogg's unreflected one. */
module OggCrc {
  import ByteBits
  import opened Bytes

  /** One entry of `_REVERSED_BYTES`: the eight bits of `b` in the opposite order. */
  function ReverseByte(b: bv8): bv8 {
    ((b & 0x01) << 7) | ((b & 0x02) << 5) | ((b & 0x04) << 3) | ((b & 0x08) << 1) |
    ((b & 0x10) >> 1) | ((b & 0x20) >> 3) | ((b & 0x40) >> 5) | ((b & 0x80) >> 7)
  }

  /** `bytes.translate(_REVERSED_BYTES)`. */
  function Translate(data: seq<bv8>): (r: seq<bv8>)
    ensures |r| == |data|
  {
    seq(|data|, i requires 0 <= i < |data| => ReverseByte(data[i]))
  }

  function Bits(data: bytes): (r: seq<bv8>)
    ensures |r| == |data|
  {
    seq(|data|, i requires 0 <= i < |data| => data[i] as bv8)
  }

  /** The register's view of a byte is the byte. */
  lemma BitsKeep(data: bytes, i: nat)
    requires i < |data|
    ensures Bits(data)[i] as nat == data[i]
  {
    ByteBits.BitsOfByte(data[i]);
  }

  /** `int.to_bytes(4, "little")` on a 32-bit value. */
  function ToLittle(x: bv32): (r: seq<bv8>)
    ensures |r| == 4
  {
    [(x & 0xff) as bv8, ((x >> 8) & 0xff) as bv8, ((x >> 16) & 0xff) as bv8, ((x >> 24) & 0xff) as bv8]
  }

  /** `int.from_bytes(s, "big")` on four bytes. */
  function FromBig(s: seq<bv8>): bv32
    requires |s| == 4
  {
    ((s[0] as bv32) << 24) | ((s[1] as bv32) << 16) | ((s[2] as bv32) << 8) | (s[3] as bv32)
  }

  // The reflected CRC-32 of RFC 1952, section 8: bits enter at the low end.

  function ReflectedBit(c: bv32): bv32 {
    if c & 1 == 1 then (c >> 1) ^ 0xEDB88320 else c >> 1
  }

  function ReflectedBits(c: bv32, count: nat): bv32
    decreases count
  {
    if count == 0 then c else ReflectedBits(ReflectedBit(c), count - 1)
  }

  function ReflectedByte(c: bv32, b: bv8): bv32 {
    ReflectedBits(c ^ (b as bv32), 8)
  }

  function ReflectedUpdate(data: seq<bv8>, c: bv32): bv32
    decreases |data|
  {
    if data == [] then c else ReflectedUpdate(data[1..], ReflectedByte(c, data[0]))
  }

  /** `binascii.crc32(data, start)`: complemented on the way in and on the way out. */
  function Crc32(data: seq<bv8>, start: bv32): bv32 {
    ReflectedUpdate(data, start ^ 0xFFFFFFFF) ^ 0xFFFFFFFF
  }

  /** The collector's checksum, by way of the reflected one. */
  function PageCrc(data: bytes): bv32 {
    var reflected := Crc32(Translate(Bits(data)), 0xFFFFFFFF) ^ 0xFFFFFFFF;
    FromBig(Translate(ToLittle(reflected)))
  }

  // The checksum RFC 3533, section 6, asks for: generator 0x04C11DB7, most significant bit first, zero start, no
  // final complement.

  function DirectBit(c: bv32): bv32 {
    if c & 0x80000000 != 0 then (c << 1) ^ 0x04C11DB7 else c << 1
  }

  function DirectBits(c: bv32, count: nat): bv32
    decreases count
  {
    if count == 0 then c else DirectBits(DirectBit(c), count - 1)
  }

  function DirectByte(c: bv32, b: bv8): bv32 {
    DirectBits(c ^ ((b as bv32) << 24), 8)
  }

  function DirectCrc(data: seq<bv8>, c: bv32): bv32
    decreases |data|
  {
    if data == [] then c else DirectCrc(data[1..], DirectByte(c, data[0]))
  }

  /** Reversal of a 32-bit register by five rounds of swaps. */
  function Reverse(x: bv32): bv32 {
    var a := ((x >> 1) & 0x55555555) | ((x & 0x55555555) << 1);
    var b := ((a >> 2) & 0x33333333) | ((a & 0x33333333) << 2);
    var c := ((b >> 4) & 0x0f0f0f0f) | ((b & 0x0f0f0f0f) << 4);
    var d := ((c >> 8) & 0x00ff00ff) | ((c & 0x00ff00ff) << 8);
    (d >> 16) | (d << 16)
  }

  lemma ReverseOddStep(c: bv32)
    requires c & 1 == 1
    ensures Reverse((c >> 1) ^ 0xEDB88320) == (Reverse(c) << 1) ^ 0x04C11DB7
  {}

  lemma ReverseEvenStep(c: bv32)
    ensures Reverse(c >> 1) == Reverse(c) << 1
  {}

  lemma ReverseLowBit(c: bv32)
    ensures c & 1 == 1 <==> Reverse(c) & 0x80000000 != 0
  {}

  lemma ReverseXor(x: bv32, y: bv32, z: bv32)
    requires Reverse(y) == z
    ensures Reverse(x ^ y) == Reverse(x) ^ z
  {}

  lemma ReverseWidened(b: bv8)
    ensures Reverse(ReverseByte(b) as bv32) == (b as bv32) << 24
  {}

  lemma ReverseMixed(c: bv32, b: bv8, w: bv32)
    requires w == ReverseByte(b) as bv32
    ensures Reverse(c ^ w) == Reverse(c) ^ ((b as bv32) << 24)
  {
    hide *;
    ReverseWidened(b);
    ReverseXor(c, w, (b as bv32) << 24);
  }

  lemma ReverseByBytes(x: bv32)
    ensures Reverse(x) ==
            ((ReverseByte((x & 0xff) as bv8) as bv32) << 24) |
            ((ReverseByte(((x >> 8) & 0xff) as bv8) as bv32) << 16) |
            ((ReverseByte(((x >> 16) & 0xff) as bv8) as bv32) << 8) |
            (ReverseByte(((x >> 24) & 0xff) as bv8) as bv32)
  {}

  lemma {:induction false} BitSteps(c: bv32, count: nat)
    ensures Reverse(ReflectedBits(c, count)) == DirectBits(Reverse(c), count)
    decreases count
  {
    hide Reverse;
    if count > 0 {
      ReverseLowBit(c);
      if c & 1 == 1 {
        ReverseOddStep(c);
      } else {
        ReverseEvenStep(c);
      }
      assert Reverse(ReflectedBit(c)) == DirectBit(Reverse(c));
      BitSteps(ReflectedBit(c), count - 1);
    }
  }

  lemma ByteStep(c: bv32, b: bv8)
    ensures Reverse(ReflectedByte(c, ReverseByte(b))) == DirectByte(Reverse(c), b)
  {
    hide Reverse, ReverseByte, ReflectedBits, DirectBits;
    var w := ReverseByte(b) as bv32;
    ReverseMixed(c, b, w);
    BitSteps(c ^ w, 8);
  }

  lemma {:induction false} UpdateMirrors(data: seq<bv8>, c: bv32)
    ensures Reverse(ReflectedUpdate(Translate(data), c)) == DirectCrc(data, Reverse(c))
    decreases |data|
  {
    if data != [] {
      ByteStep(c, data[0]);
      assert Translate(data)[1..] == Translate(data[1..]);
      UpdateMirrors(data[1..], ReflectedByte(c, ReverseByte(data[0])));
    }
  }

  lemma DoubleComplement(x: bv32)
    ensures (x ^ 0xFFFFFFFF) ^ 0xFFFFFFFF == x
  {}

  lemma ReverseAsBytes(x: bv32)
    ensures FromBig(Translate(ToLittle(x))) == Reverse(x)
  {
    var s := ToLittle(x);
    var t := Translate(s);
    assert t[0] == ReverseByte(s[0]);
    assert t[1] == ReverseByte(s[1]);
    assert t[2] == ReverseByte(s[2]);
    assert t[3] == ReverseByte(s[3]);
    ReverseByBytes(x);
  }

  /** The reflected detour computes exactly the checksum of RFC 3533 for every byte string. */
  lemma PageCrcIsDirectCrc(data: bytes)
    ensures PageCrc(data) == DirectCrc(Bits(data), 0)
  {
    var translated := Translate(Bits(data));
    var raw := ReflectedUpdate(translated, 0);
    assert 0xFFFFFFFF as bv32 ^ 0xFFFFFFFF == 0;
    DoubleComplement(raw);
    ReverseAsBytes(raw);
    UpdateMirrors(Bits(data), 0);
    assert Reverse(0) == 0;
  }

  /** `_ogg_crc`: the checksum as the integer the page stores. */
  function Checksum(data: bytes): (n: nat)
    ensures n <= UINT32_MAX
  {
    PageCrc(data) as nat
  }

  /** The checksum a reader recomputes from RFC 3533 alone. */
  function ReferenceChecksum(data: bytes): nat {
    DirectCrc(Bits(data), 0) as nat
  }

  lemma ChecksumIsReference(data: bytes)
    ensures Checksum(data) == ReferenceChecksum(data)
  {
    PageCrcIsDirectCrc(data);
  }
}
