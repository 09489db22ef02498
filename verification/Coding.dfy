/** Variable-length integers and length-prefixed strings (util/coding.cc). */
module Coding {
  import opened Wrappers
  import opened Bytes

  /** Seven bits a byte, low bits first; all bytes but the last have their top bit set. */
  function EncodeVarint(v: nat): (r: seq<byte>)
    ensures |r| >= 1 && (v < 128 <==> |r| == 1)
  {
    if v < 128 then [v as byte] else [(v % 128 + 128) as byte] + EncodeVarint(v / 128)
  }

  datatype Decoded = Decoded(value: nat, next: nat)

  /** At most `count` bytes are read, from position `p` up to `limit`. */
  function DecodeVarint(s: seq<byte>, p: nat, limit: nat, count: nat): (r: Option<Decoded>)
    requires p <= limit <= |s|
    ensures r.Some? ==> p < r.value.next <= limit
    decreases limit - p
  {
    if count == 0 || p == limit then None
    else if s[p] < 128 then Some(Decoded(s[p] as int, p + 1))
    else
      match DecodeVarint(s, p + 1, limit, count - 1)
      case None => None
      case Some(d) => Some(Decoded(s[p] as int - 128 + 128 * d.value, d.next))
  }

  /** `bytes` stand at position `p`. */
  ghost predicate Stands(s: seq<byte>, p: nat, bytes: seq<byte>) {
    p + |bytes| <= |s| && s[p..p + |bytes|] == bytes
  }

  lemma StandsParts(s: seq<byte>, p: nat, a: seq<byte>, b: seq<byte>)
    requires Stands(s, p, a + b)
    ensures Stands(s, p, a) && Stands(s, p + |a|, b)
  {
    var whole := s[p..p + |a| + |b|];
    assert whole[..|a|] == a && whole[|a|..] == b;
  }

  lemma StandsLonger(s: seq<byte>, p: nat, bytes: seq<byte>, tail: seq<byte>)
    requires Stands(s, p, bytes)
    ensures Stands(s + tail, p, bytes)
  {
  }

  /** Values below 128 to the power `n`. */
  ghost predicate Fits(v: nat, n: nat)
    decreases n
  {
    if n == 0 then v == 0 else Fits(v / 128, n - 1)
  }

  lemma {:induction false} VarintRoundTrip(s: seq<byte>, p: nat, limit: nat, v: nat, count: nat)
    requires p <= limit <= |s| && Stands(s, p, EncodeVarint(v)) && p + |EncodeVarint(v)| <= limit
    requires count > 0 && Fits(v, count)
    ensures DecodeVarint(s, p, limit, count) == Some(Decoded(v, p + |EncodeVarint(v)|))
    decreases count
  {
    var code := EncodeVarint(v);
    assert s[p] == s[p..p + |code|][0];
    if v >= 128 {
      StandsParts(s, p, [(v % 128 + 128) as byte], EncodeVarint(v / 128));
      VarintRoundTrip(s, p + 1, limit, v / 128, count - 1);
    }
  }

  /** A varint that breaks off is none. */
  lemma {:induction false} VarintCut(s: seq<byte>, p: nat, limit: nat, v: nat, count: nat)
    requires p <= limit <= |s| && limit - p < |EncodeVarint(v)| && s[p..limit] == EncodeVarint(v)[..limit - p]
    ensures DecodeVarint(s, p, limit, count) == None
    decreases limit - p
  {
    if count > 0 && p < limit {
      var code := EncodeVarint(v);
      assert s[p] == s[p..limit][0] == code[0];
      assert v >= 128;
      assert s[p + 1..limit] == s[p..limit][1..] == code[1..][..limit - (p + 1)];
      VarintCut(s, p + 1, limit, v / 128, count - 1);
    }
  }

  lemma Fits32(v: nat)
    requires v < TWO_32
    ensures Fits(v, 5)
  {
    assert Fits(v / 128 / 128 / 128 / 128 / 128, 0);
    assert Fits(v / 128 / 128 / 128 / 128, 1);
    assert Fits(v / 128 / 128 / 128, 2);
    assert Fits(v / 128 / 128, 3);
    assert Fits(v / 128, 4);
  }

  lemma Fits64(v: nat)
    requires v < TWO_64
    ensures Fits(v, 10)
  {
    var w := v / 128 / 128 / 128 / 128 / 128;
    Fits32(w);
    assert Fits(v / 128 / 128 / 128 / 128, 6);
    assert Fits(v / 128 / 128 / 128, 7);
    assert Fits(v / 128 / 128, 8);
    assert Fits(v / 128, 9);
  }

  /** The value is truncated to the width of the result. */
  function Truncated(r: Option<Decoded>, width: nat): Option<Decoded>
    requires width > 0
  {
    if r == None then None else Some(Decoded(r.value.value % width, r.value.next))
  }

  function GetVarint32(s: seq<byte>, p: nat, limit: nat): (r: Option<Decoded>)
    requires p <= limit <= |s|
    ensures r.Some? ==> p < r.value.next <= limit && r.value.value < TWO_32
  {
    Truncated(DecodeVarint(s, p, limit, 5), TWO_32)
  }

  function GetVarint64(s: seq<byte>, p: nat, limit: nat): (r: Option<Decoded>)
    requires p <= limit <= |s|
    ensures r.Some? ==> p < r.value.next <= limit && r.value.value < TWO_64
  {
    Truncated(DecodeVarint(s, p, limit, 10), TWO_64)
  }

  lemma Varint32RoundTrip(s: seq<byte>, p: nat, limit: nat, v: nat)
    requires v < TWO_32 && Stands(s, p, EncodeVarint(v)) && p + |EncodeVarint(v)| <= limit <= |s|
    ensures GetVarint32(s, p, limit) == Some(Decoded(v, p + |EncodeVarint(v)|))
  {
    Fits32(v);
    VarintRoundTrip(s, p, limit, v, 5);
  }

  lemma Varint64RoundTrip(s: seq<byte>, p: nat, limit: nat, v: nat)
    requires v < TWO_64 && Stands(s, p, EncodeVarint(v)) && p + |EncodeVarint(v)| <= limit <= |s|
    ensures GetVarint64(s, p, limit) == Some(Decoded(v, p + |EncodeVarint(v)|))
  {
    Fits64(v);
    VarintRoundTrip(s, p, limit, v, 10);
  }

  // ------------------------------------------------------------ as loops do it

  method PutVarint64(dst: seq<byte>, value: nat) returns (r: seq<byte>)
    ensures r == dst + EncodeVarint(value)
  {
    var v := value;
    r := dst;
    while v >= 128
      invariant r + EncodeVarint(v) == dst + EncodeVarint(value)
    {
      r := r + [(v % 128 + 128) as byte];
      v := v / 128;
    }
    r := r + [v as byte];
  }

  function Low(v: nat): byte { (v % 128 + 128) as byte }

  /** The unrolled encoder for 32 bits. */
  method PutVarint32(dst: seq<byte>, v: nat) returns (r: seq<byte>)
    requires v < TWO_32
    ensures r == dst + EncodeVarint(v)
  {
    var code;
    if v < 0x80 {
      code := [v as byte];
    } else if v < 0x4000 {
      code := [Low(v), (v / 128) as byte];
      assert EncodeVarint(v / 128) == code[1..];
    } else if v < 0x20_0000 {
      code := [Low(v), Low(v / 128), (v / 128 / 128) as byte];
      assert EncodeVarint(v / 128 / 128) == code[2..];
      assert EncodeVarint(v / 128) == code[1..];
    } else if v < 0x1000_0000 {
      code := [Low(v), Low(v / 128), Low(v / 128 / 128), (v / 128 / 128 / 128) as byte];
      assert EncodeVarint(v / 128 / 128 / 128) == code[3..];
      assert EncodeVarint(v / 128 / 128) == code[2..];
      assert EncodeVarint(v / 128) == code[1..];
    } else {
      code := [Low(v), Low(v / 128), Low(v / 128 / 128), Low(v / 128 / 128 / 128), (v / 128 / 128 / 128 / 128) as byte];
      assert EncodeVarint(v / 128 / 128 / 128 / 128) == code[4..];
      assert EncodeVarint(v / 128 / 128 / 128) == code[3..];
      assert EncodeVarint(v / 128 / 128) == code[2..];
      assert EncodeVarint(v / 128) == code[1..];
    }
    assert EncodeVarint(v) == code;
    r := dst + code;
  }

  /** A partial result with `weight` for the bytes still to come. */
  ghost function Combine(result: nat, weight: nat, rest: Option<Decoded>): Option<Decoded> {
    if rest == None then None else Some(Decoded(result + weight * rest.value.value, rest.value.next))
  }

  lemma CombineStep(result: nat, weight: nat, low: nat, rest: nat)
    ensures weight * low >= 0 && result + weight * (low + 128 * rest) == result + weight * low + weight * 128 * rest
  {
  }

  /** The shared loop of the two decoders: `count` is 5 for 32 bits and 10 for 64. */
  method GetVarintPtr(s: seq<byte>, p: nat, limit: nat, count: nat) returns (r: Option<Decoded>)
    requires p <= limit <= |s|
    ensures r == DecodeVarint(s, p, limit, count)
  {
    var q, left := p, count;
    var result: nat, weight: nat := 0, 1;
    while left > 0 && q < limit
      invariant p <= q <= limit
      invariant DecodeVarint(s, p, limit, count) == Combine(result, weight, DecodeVarint(s, q, limit, left))
    {
      var b := s[q];
      CombineStep(result, weight, b as nat, 0);
      if b < 128 {
        return Some(Decoded(result + weight * b as nat, q + 1));
      }
      ghost var rest := DecodeVarint(s, q + 1, limit, left - 1);
      CombineStep(result, weight, b as nat - 128, if rest == None then 0 else rest.value.value);
      result := result + weight * (b as nat - 128);
      weight := weight * 128;
      q, left := q + 1, left - 1;
    }
    return None;
  }
}
