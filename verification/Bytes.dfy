/** Bytes, fixed-width integers and checksum masking (util/coding.cc, util/crc32c.h). */
module Bytes {

  newtype byte = b: int | 0 <= b < 256
  type uint32 = x: int | 0 <= x < TWO_32

  const TWO_32: nat := 0x1_0000_0000
  const TWO_64: nat := 0x1_0000_0000_0000_0000

  function Zeros(n: nat): (r: seq<byte>)
    ensures |r| == n
  {
    seq(n, _ => 0)
  }

  /** Little-endian. */
  function EncodeFixed32(v: uint32): (r: seq<byte>)
    ensures |r| == 4
  {
    [(v % 256) as byte, (v / 256 % 256) as byte, (v / 256 / 256 % 256) as byte, (v / 256 / 256 / 256) as byte]
  }

  function DecodeFixed32(s: seq<byte>): uint32
    requires |s| >= 4
  {
    s[0] as int + 256 * (s[1] as int + 256 * (s[2] as int + 256 * s[3] as int))
  }

  lemma Fixed32RoundTrip(v: uint32, rest: seq<byte>)
    ensures DecodeFixed32(EncodeFixed32(v) + rest) == v
  {
    var s := EncodeFixed32(v) + rest;
    assert s[0] as int == v % 256 && s[1] as int == v / 256 % 256 && s[2] as int == v / 256 / 256 % 256
        && s[3] as int == v / 256 / 256 / 256;
  }

  /** The low byte comes first. */
  lemma Fixed32IsLittleEndian(v: uint32)
    ensures var r := EncodeFixed32(v);
            v == r[0] as int + 0x100 * r[1] as int + 0x1_0000 * r[2] as int + 0x100_0000 * r[3] as int
  {
    assert v / 0x1_0000 == v / 256 / 256 && v / 0x100_0000 == v / 256 / 256 / 256;
  }

  /** Of eight bytes the low four come first. */
  lemma Fixed64IsLittleEndian(n: nat)
    requires n < TWO_64
    ensures var r := EncodeFixed64(n); n == DecodeFixed32(r) + 0x1_0000_0000 * DecodeFixed32(r[4..])
  {
    var low, high := EncodeFixed32(n % TWO_32), EncodeFixed32(n / TWO_32);
    Fixed32RoundTrip(n % TWO_32, high);
    Fixed32RoundTrip(n / TWO_32, []);
    assert (low + high)[4..] == high + [];
  }

  function EncodeFixed64(n: nat): (r: seq<byte>)
    requires n < TWO_64
    ensures |r| == 8
  {
    EncodeFixed32(n % TWO_32) + EncodeFixed32(n / TWO_32)
  }

  function DecodeFixed64(s: seq<byte>): (n: nat)
    requires |s| >= 8
    ensures n < TWO_64
  {
    DecodeFixed32(s) + TWO_32 * DecodeFixed32(s[4..])
  }

  lemma Fixed64RoundTrip(n: nat, rest: seq<byte>)
    requires n < TWO_64
    ensures DecodeFixed64(EncodeFixed64(n) + rest) == n
  {
    var low, high := EncodeFixed32(n % TWO_32), EncodeFixed32(n / TWO_32);
    assert low + high + rest == low + (high + rest);
    assert (low + (high + rest))[4..] == high + rest;
    Fixed32RoundTrip(n % TWO_32, high + rest);
    Fixed32RoundTrip(n / TWO_32, rest);
  }

  /** Only the first eight bytes count. */
  lemma Fixed64Prefix(s: seq<byte>, t: seq<byte>)
    requires |s| >= 8 && |t| >= 8 && s[..8] == t[..8]
    ensures DecodeFixed64(s) == DecodeFixed64(t)
  {
    assert forall i :: 0 <= i < 8 ==> s[i] == s[..8][i] && t[i] == t[..8][i];
  }

  /** An array of fixed-width integers. */
  function Fixed32s(numbers: seq<uint32>): (r: seq<byte>)
    ensures |r| == 4 * |numbers|
  {
    if numbers == [] then [] else Fixed32s(numbers[..|numbers| - 1]) + EncodeFixed32(numbers[|numbers| - 1])
  }

  /** The number at `j` of an array that starts at `base`. */
  function Fixed32At(data: seq<byte>, base: nat, j: nat): uint32
    requires base + 4 * j + 4 <= |data|
  {
    DecodeFixed32(data[base + 4 * j..])
  }

  lemma {:induction false} Fixed32sRead(front: seq<byte>, numbers: seq<uint32>, tail: seq<byte>, j: nat)
    requires j < |numbers|
    ensures Fixed32At(front + Fixed32s(numbers) + tail, |front|, j) == numbers[j]
    decreases |numbers|
  {
    var n := |numbers| - 1;
    var init, last := Fixed32s(numbers[..n]), EncodeFixed32(numbers[n]);
    assert front + Fixed32s(numbers) + tail == front + init + (last + tail);
    if j < n {
      Fixed32sRead(front, numbers[..n], last + tail, j);
    } else {
      assert (front + init + (last + tail))[|front| + 4 * n..] == last + tail;
      Fixed32RoundTrip(numbers[n], tail);
    }
  }

  const MASK_DELTA: uint32 := 0xa282ead8

  /** A stored checksum is rotated right by 15 bits and offset, so that data holding checksums can be
      checksummed again. */
  function Mask(crc: uint32): uint32 {
    (crc / 0x8000 + crc % 0x8000 * 0x2_0000 + MASK_DELTA) % TWO_32
  }

  function Unmask(masked: uint32): uint32 {
    var rot := (masked - MASK_DELTA) % TWO_32;
    rot / 0x2_0000 + rot % 0x2_0000 * 0x8000
  }

  lemma UnmaskMask(crc: uint32)
    ensures Unmask(Mask(crc)) == crc
  {
    var high, low := crc / 0x8000, crc % 0x8000;
    var rot := high + low * 0x2_0000;
    assert 0 <= rot < TWO_32;
    assert (Mask(crc) - MASK_DELTA) % TWO_32 == rot;
    assert rot / 0x2_0000 == low && rot % 0x2_0000 == high;
  }
}
