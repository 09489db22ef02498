/** Which numbers and bytes the decoder takes, whoever wrote them. */
module PbNumbers {
  import opened Wrappers
  import opened Bytes
  import opened Coding
  import opened PbDecoding
  import opened PbFields
  import opened PbRoundTrip
  import opened PbWire
  import PbIStreams

  // ------------------------------------------------------------------ varints

  /** A varint of up to ten bytes, minimal or not, is the number whose digits to the base 128 the bytes are,
      cut to 64 bits. */
  lemma Varint64Is(s: Stream, n: nat)
    requires n < 10 && n < |s| && AllContinue(s, n) && s[n] < 128
    ensures DecodeVarint64(s) == Some(Got(Low7(s, n + 1) % TWO_64, s[n + 1..]))
  {
    PbIStreams.VarintStops(s, n, 10);
  }

  /** Eleven bytes are too many, and a varint that breaks off is none. */
  lemma Varint64Fails(s: Stream, n: nat)
    requires n <= |s| && AllContinue(s, n) && (n == 10 || n == |s| < 10)
    ensures DecodeVarint64(s) == None
  {
    PbIStreams.VarintEnds(s, n, 10);
  }

  /** The storage engine cuts a varint of up to five bytes to 32 bits, and refuses a longer one. */
  lemma Varint32IsCut(s: seq<byte>, n: nat)
    requires n < |s| && AllContinue(s, n)
    ensures n < 5 && s[n] < 128 ==> GetVarint32(s, 0, |s|) == Some(Decoded(Low7(s, n + 1) % TWO_32, n + 1))
    ensures n == 5 ==> GetVarint32(s, 0, |s|) == None
  {
    if n < 5 && s[n] < 128 { PbIStreams.VarintStops(s, n, 5); }
    if n == 5 { PbIStreams.VarintEnds(s, 5, 5); }
  }

  /** The encoder writes those digits, and no leading zeros. */
  lemma {:induction false} VarintDigits(v: nat)
    ensures var s := EncodeVarint(v); var n := |s| - 1;
            AllContinue(s, n) && s[n] < 128 && (n > 0 ==> s[n] != 0) && Low7(s, n + 1) == v
    decreases v
  {
    var s := EncodeVarint(v);
    var n := |s| - 1;
    VarintPrefix(v, n, []);
    assert s + [] == s;
    ShiftOnce(v, n);
    TimesIs(Power128(n), Shift(v, n));
  }

  /** What is left of the number after `n` digits. */
  function Shift(v: nat, n: nat): nat {
    if n == 0 then v else Shift(v / 128, n - 1)
  }

  lemma {:induction false} ShiftOnce(v: nat, n: nat)
    requires n == |EncodeVarint(v)| - 1
    ensures 0 <= Shift(v, n) < 128 && (n > 0 ==> Shift(v, n) > 0)
    ensures EncodeVarint(v)[n] as nat == Shift(v, n)
    decreases v
  {
    if v >= 128 {
      ShiftOnce(v / 128, n - 1);
    }
  }

  lemma {:induction false} ShiftNext(v: nat, n: nat)
    ensures Shift(v, n + 1) == Shift(v, n) / 128
    decreases n
  {
    if n > 0 { ShiftNext(v / 128, n - 1); }
  }

  /** The first digits of a number, and the others. */
  lemma {:induction false} VarintPrefix(v: nat, n: nat, rest: Stream)
    requires n < |EncodeVarint(v)|
    ensures var s := EncodeVarint(v) + rest;
            && AllContinue(s, n) && s[n..] == EncodeVarint(Shift(v, n)) + rest
            && v == Plus(Low7(s, n), Power128(n), Shift(v, n))
    decreases n
  {
    var s := EncodeVarint(v) + rest;
    if n == 0 {
      TimesIs(1, v);
    } else {
      VarintPrefix(v, n - 1, rest);
      ShiftNext(v, n - 1);
      var w := Shift(v, n - 1);
      LongerThan(v, n - 1, rest);
      assert s[n - 1..][0] == (EncodeVarint(w) + rest)[0];
      assert s[n..] == s[n - 1..][1..];
      assert (EncodeVarint(w) + rest)[1..] == EncodeVarint(w / 128) + rest;
      DigitMoves(Low7(s, n - 1), Power128(n - 1), w);
    }
  }

  lemma LongerThan(v: nat, n: nat, rest: Stream)
    requires n + 1 < |EncodeVarint(v)|
    requires (EncodeVarint(v) + rest)[n..] == EncodeVarint(Shift(v, n)) + rest
    ensures Shift(v, n) >= 128
  {
    assert |(EncodeVarint(v) + rest)[n..]| == |EncodeVarint(v)| + |rest| - n;
  }

  lemma DigitMoves(low: nat, weight: nat, w: nat)
    ensures Plus(low, weight, w) == Plus(Plus(low, weight, w % 128), 128 * weight, w / 128)
  {
    TimesIs(weight, w);
    TimesIs(weight, w % 128);
    TimesIs(128 * weight, w / 128);
    assert w == w % 128 + 128 * (w / 128);
    assert weight * (w % 128 + 128 * (w / 128)) == weight * (w % 128) + 128 * weight * (w / 128);
  }

  /** Where 32 bits are asked for, a number that needs more is refused, except that a negative one may come
      with its sign extended to 64 bits. */
  lemma Varint32Takes(v: nat, rest: Stream)
    requires v < TWO_64
    ensures v < TWO_32 ==> DecodeVarint32(EncodeVarint(v) + rest) == Some(Got(v, rest))
    ensures TWO_32 <= v < TWO_64 / 2 ==> DecodeVarint32(EncodeVarint(v) + rest) == None
    ensures v >= TWO_64 - TWO_32 / 2 ==>
              DecodeVarint32(EncodeVarint(v) + rest) == Some(Got(v - (TWO_64 - TWO_32), rest))
  {
    if v < TWO_32 {
      Varint32Reads(v, rest);
    } else if v < 0x8_0000_0000 {
      FiveDigits(v, rest);
    } else {
      var s, w := EncodeVarint(v) + rest, v / 0x8_0000_0000;
      LongPrefix(v, rest);
      PbIStreams.Varint32Pads(s, v % 0x8_0000_0000 % TWO_32);
      if v < TWO_64 / 2 {
        Powers28();
        PaddingFails(w, v % 0x8_0000_0000 % TWO_32 >= 0x8000_0000, 35, rest);
      } else if v >= TWO_64 - TWO_32 / 2 {
        assert w == 0x1FFF_FFFF;
        SignPads(rest);
      }
    }
  }

  lemma FiveDigits(v: nat, rest: Stream)
    requires TWO_32 <= v < 0x8_0000_0000
    ensures DecodeVarint32(EncodeVarint(v) + rest) == None
  {
    var s := EncodeVarint(v) + rest;
    assert s[..|EncodeVarint(v)|] == EncodeVarint(v);
    assert Fits(v / 128 / 128 / 128 / 128 / 128, 0);
    assert Fits(v / 128 / 128 / 128 / 128, 1);
    assert Fits(v / 128 / 128 / 128, 2);
    assert Fits(v / 128 / 128, 3);
    assert Fits(v / 128, 4);
    VarintRoundTrip(s, 0, |s|, v, 5);
  }

  lemma Shift5(v: nat)
    ensures Shift(v, 5) == v / 0x8_0000_0000
  {
    assert Shift(v / 128 / 128 / 128 / 128 / 128, 0) == v / 128 / 128 / 128 / 128 / 128;
    assert Shift(v / 128 / 128 / 128 / 128, 1) == v / 128 / 128 / 128 / 128 / 128;
    assert Shift(v / 128 / 128 / 128, 2) == v / 128 / 128 / 128 / 128 / 128;
    assert Shift(v / 128 / 128, 3) == v / 128 / 128 / 128 / 128 / 128;
    assert Shift(v / 128, 4) == v / 128 / 128 / 128 / 128 / 128;
  }

  lemma {:induction false} LengthOf(v: nat, n: nat)
    requires Shift(v, n) > 0
    ensures n < |EncodeVarint(v)|
    decreases n
  {
    if n > 0 {
      ShiftSmaller(v / 128, n - 1);
      LengthOf(v / 128, n - 1);
    }
  }

  lemma {:induction false} ShiftSmaller(v: nat, n: nat)
    ensures Shift(v, n) <= v
    decreases n
  {
    if n > 0 { ShiftSmaller(v / 128, n - 1); }
  }

  lemma LongPrefix(v: nat, rest: Stream)
    requires v >= 0x8_0000_0000
    ensures var s := EncodeVarint(v) + rest;
            && 5 <= |s| && AllContinue(s, 5) && Low7(s, 5) == v % 0x8_0000_0000
            && s[5..] == EncodeVarint(v / 0x8_0000_0000) + rest
  {
    var s := EncodeVarint(v) + rest;
    Shift5(v);
    LengthOf(v, 5);
    VarintPrefix(v, 5, rest);
    Low7Bound(s, 5);
    PbIStreams.Powers();
    assert Power128(5) == 0x8_0000_0000;
    TimesIs(Power128(5), Shift(v, 5));
  }

  /** Bits above the 32, with a zero sign, are no padding. */
  lemma {:induction false} PaddingFails(w: nat, negative: bool, bitpos: nat, rest: Stream)
    requires 0 < w < PowerOf2(63 - bitpos) && bitpos <= 63 && (63 - bitpos) % 7 == 0
    ensures Padding(EncodeVarint(w) + rest, negative, bitpos) == None
    decreases 63 - bitpos
  {
    var s := EncodeVarint(w) + rest;
    if w >= 128 {
      assert s[1..] == EncodeVarint(w / 128) + rest;
      Powers7(63 - bitpos);
      PaddingFails(w / 128, negative, bitpos + 7, rest);
    }
  }

  function PowerOf2(n: int): nat {
    if n <= 0 then 1 else 2 * PowerOf2(n - 1)
  }

  lemma Powers7(n: nat)
    requires n >= 7
    ensures PowerOf2(n) == 128 * PowerOf2(n - 7)
  {
    assert PowerOf2(n) == 2 * PowerOf2(n - 1) == 4 * PowerOf2(n - 2) == 8 * PowerOf2(n - 3) == 16 * PowerOf2(n - 4);
    assert PowerOf2(n - 4) == 2 * PowerOf2(n - 5) == 4 * PowerOf2(n - 6) == 8 * PowerOf2(n - 7);
  }

  lemma Powers28()
    ensures PowerOf2(28) == 0x1000_0000
  {
    Powers7(28);
    Powers7(21);
    Powers7(14);
    Powers7(7);
  }

  lemma SignPads(rest: Stream)
    ensures Padding(EncodeVarint(0x1FFF_FFFF) + rest, true, 35) == Some(rest)
  {
    var code: seq<byte> := [0xFF, 0xFF, 0xFF, 0xFF, 1];
    assert EncodeVarint(0x1FFF_FFFF) == code by {
      assert EncodeVarint(1) == code[4..];
      assert EncodeVarint(0xFF) == code[3..];
      assert EncodeVarint(0x7FFF) == code[2..];
      assert EncodeVarint(0x3F_FFFF) == code[1..];
    }
    assert Padding(code[4..] + rest, true, 63) == Some(rest) by { assert (code[4..] + rest)[1..] == rest; }
    assert Padding(code[3..] + rest, true, 56) == Some(rest) by { assert (code[3..] + rest)[1..] == code[4..] + rest; }
    assert Padding(code[2..] + rest, true, 49) == Some(rest) by { assert (code[2..] + rest)[1..] == code[3..] + rest; }
    assert Padding(code[1..] + rest, true, 42) == Some(rest) by { assert (code[1..] + rest)[1..] == code[2..] + rest; }
    assert (code + rest)[1..] == code[1..] + rest;
  }

  // ------------------------------------------------------------------ numbers

  /** ZigZag: 0, -1, 1, -2, 2, ... are numbered in this order. */
  lemma ZigZagCounts(n: int)
    requires n > 0
    ensures ZigZag(0) == 0 && ZigZag(-n) == ZigZag(n) - 1 && ZigZag(-n) == ZigZag(n - 1) + 1
  {
  }

  lemma UnsignedReads(size: nat, v: nat, rest: Stream)
    requires Range(size) > 0 && v < TWO_64
    ensures DecodeScalar(UVarint(size), EncodeVarint(v) + rest) == Back(v < Range(size), Number(v), rest)
  {
    Varint64Reads(v, rest);
  }

  lemma ZigZagReads(size: nat, n: int, rest: Stream)
    requires Range(size) > 0 && FitsSigned(8, n)
    ensures DecodeScalar(SVarint(size), EncodeVarint(ZigZag(n)) + rest) == Back(FitsSigned(size, n), Number(n), rest)
  {
    ZigZagUndone(n);
    Varint64Reads(ZigZag(n), rest);
  }

  /** A signed field of up to 32 bits looks at the low 32 bits only, which then have to fit. */
  lemma SignedReads(size: nat, n: int, k: int, v: nat, rest: Stream)
    requires Range(size) > 0 && v < TWO_64
    requires if size == 8 then FitsSigned(8, n) && v == n + k * TWO_64 else FitsSigned(4, n) && v == n + k * TWO_32
    ensures DecodeScalar(Varint(size), EncodeVarint(v) + rest) == Back(FitsSigned(size, n), Number(n), rest)
  {
    Varint64Reads(v, rest);
    if size == 8 { SignedIsUnique(8, n, k, v); } else { SignedIsUnique(4, n, k, v); }
  }

  lemma SignedIsUnique(size: nat, n: int, k: int, v: int)
    requires (size == 4 || size == 8) && FitsSigned(size, n) && v == n + k * Range(size)
    ensures Signed(size, v) == n
  {
    var j := SignedIsCongruent(size, v);
    assert j == k;
  }

  // -------------------------------------------------------------------- bytes

  /** Bytes must keep to their maximum, a string must leave room for its NUL and ends at the first it has,
      and bytes of a fixed length come in that length or not at all. */
  lemma DataReads(field: Field, current: Value, data: seq<byte>, text: seq<byte>, rest: Stream)
    requires |data| < TWO_32 && text <= data && 0 !in text && (text == data || data[|text|] == 0)
    ensures field.kind.Text? ==>
              DecodeValue(field, current, EncodeString(data) + rest)
              == Back(|data| <= field.kind.max, Data(data), rest)
    ensures field.kind.String? ==>
              DecodeValue(field, current, EncodeString(data) + rest)
              == Back(|data| < field.kind.size, Data(text), rest)
    ensures field.kind.FixedBytes? ==>
              DecodeValue(field, current, EncodeString(data) + rest)
              == Back(data == [] || |data| == field.kind.size,
                      Data(if data == [] then Zeros(field.kind.size) else data), rest)
  {
    StringReads(data, rest);
    EndsAtNul(data, text);
  }

  lemma {:induction false} EndsAtNul(data: seq<byte>, text: seq<byte>)
    requires text <= data && 0 !in text && (text == data || data[|text|] == 0)
    ensures UpToNul(data) == text
    decreases |data|
  {
    if data != [] && data[0] != 0 {
      assert text != [] && text[0] == data[0];
      EndsAtNul(data[1..], text[1..]);
      assert text == [text[0]] + text[1..];
    }
  }
}
