/** Protocol Buffers on the wire as nanopb writes and reads them (nanopb/pb_encode.c, pb_decode.c):
    Base 128 varints, ZigZag numbers, fixed-width numbers, keys.

    Readers take bytes from the front of a stream and give what they read and the rest. */
module PbWire {
  import opened Wrappers
  import opened Bytes
  import opened Coding

  type Stream = seq<byte>

  datatype Got<+T> = Got(value: T, rest: Stream)

  // ------------------------------------------------------------------ varints

  function DecodeVarint64(s: Stream): (r: Option<Got<nat>>)
    ensures r.Some? ==> |r.value.rest| < |s| && r.value.value < TWO_64
  {
    match GetVarint64(s, 0, |s|)
    case None => None
    case Some(d) => Some(Got(d.value, s[d.next..]))
  }

  /** The low seven bits. */
  function Bits7(b: byte): (x: nat)
    ensures x < 128
  {
    if b >= 128 then b as nat - 128 else b as nat
  }

  /** The weight of byte `n`. */
  function Power128(n: nat): (w: nat)
    ensures w > 0
  {
    if n == 0 then 1 else 128 * Power128(n - 1)
  }

  /** Multiplication, which the solver need not look into. */
  function Times(weight: nat, x: nat): nat {
    if x == 0 then 0 else weight + Times(weight, x - 1)
  }

  lemma {:induction false} TimesIs(weight: nat, x: nat)
    ensures Times(weight, x) == weight * x
  {
    if x > 0 {
      TimesIs(weight, x - 1);
      assert weight * x == weight + weight * (x - 1);
    }
  }

  function Plus(low: nat, weight: nat, x: nat): nat {
    low + Times(weight, x)
  }

  /** What the first `n` bytes give, seven bits each. */
  function Low7(s: Stream, n: nat): nat
    requires n <= |s|
  {
    if n == 0 then 0 else Plus(Low7(s, n - 1), Power128(n - 1), Bits7(s[n - 1]))
  }

  lemma {:induction false} Low7Bound(s: Stream, n: nat)
    requires n <= |s|
    ensures Low7(s, n) < Power128(n)
  {
    if n > 0 {
      Low7Bound(s, n - 1);
      PlusBound(Low7(s, n - 1), Power128(n - 1), Bits7(s[n - 1]));
    }
  }

  lemma PlusBound(low: nat, weight: nat, x: nat)
    requires low < weight && x < 128
    ensures Plus(low, weight, x) < 128 * weight
  {
    TimesIs(weight, x);
    TimesGrows(weight, x, 127);
  }

  lemma TimesGrows(weight: nat, x: nat, y: nat)
    requires x <= y
    ensures weight * x <= weight * y
  {
    assert weight * y == weight * x + weight * (y - x);
  }

  /** From bit 35 on, bytes may only be padding: zeros, or the ones that extend a sign. */
  function Padding(s: Stream, negative: bool, bitpos: nat): (r: Option<Stream>)
    ensures r.Some? ==> |r.value| < |s|
  {
    if s == [] || (Bits7(s[0]) != 0 && (!negative || s[0] as nat != (if bitpos < 63 then 0xFF else 1))) then None
    else if s[0] >= 128 then Padding(s[1..], negative, bitpos + 7)
    else Some(s[1..])
  }

  /** A number of 32 bits: in five bytes or fewer it must fit; in more, its low 32 bits are taken. */
  function DecodeVarint32(s: Stream): (r: Option<Got<nat>>)
    ensures r.Some? ==> |r.value.rest| < |s| && r.value.value < TWO_32
  {
    match DecodeVarint(s, 0, |s|, 5)
    case Some(d) => if d.value < TWO_32 then Some(Got(d.value, s[d.next..])) else None
    case None =>
      if |s| < 5 then None else
        var result := Low7(s, 5) % TWO_32;
        match Padding(s[5..], result >= 0x8000_0000, 35)
        case None => None
        case Some(rest) => Some(Got(result, rest))
  }

  ghost predicate AllContinue(s: Stream, n: nat)
    requires n <= |s|
  {
    forall i :: 0 <= i < n ==> s[i] >= 128
  }

  /** The low part of a number before what follows it. */
  ghost function Before(low: nat, weight: nat, rest: Option<Decoded>): Option<Decoded> {
    if rest == None then None else Some(Decoded(Plus(low, weight, rest.value.value), rest.value.next))
  }

  lemma VarintStep(s: Stream, p: nat, count: nat)
    requires p < |s| && count > 0 && s[p] >= 128
    ensures DecodeVarint(s, p, |s|, count) == More(s[p] as nat - 128, DecodeVarint(s, p + 1, |s|, count - 1))
  {
  }

  lemma BeforeNothing(rest: Option<Decoded>)
    ensures Before(0, 1, rest) == rest
  {
    if rest.Some? {
      TimesIs(1, rest.value.value);
    }
  }

  /** A varint read in two parts. */
  lemma {:induction false} VarintSplits(s: Stream, n: nat, count: nat)
    requires n <= |s| && n <= count && AllContinue(s, n)
    ensures DecodeVarint(s, 0, |s|, count) == Before(Low7(s, n), Power128(n), DecodeVarint(s, n, |s|, count - n))
  {
    if n == 0 {
      BeforeNothing(DecodeVarint(s, 0, |s|, count));
    } else {
      VarintSplits(s, n - 1, count);
      VarintStep(s, n - 1, count - n + 1);
      var x, rest := s[n - 1] as nat - 128, DecodeVarint(s, n, |s|, count - n);
      BeforeMoves(Low7(s, n - 1), Power128(n - 1), x, rest);
      assert Low7(s, n) == Plus(Low7(s, n - 1), Power128(n - 1), x);
    }
  }

  /** A byte that says more is to come. */
  ghost function More(x: nat, rest: Option<Decoded>): Option<Decoded> {
    if rest == None then None else Some(Decoded(x + 128 * rest.value.value, rest.value.next))
  }

  /** Such a byte moves from the second part to the first. */
  lemma BeforeMoves(low: nat, weight: nat, x: nat, rest: Option<Decoded>)
    ensures Before(low, weight, More(x, rest)) == Before(Plus(low, weight, x), 128 * weight, rest)
  {
    if rest != None {
      var r := rest.value.value;
      TimesIs(weight, x);
      TimesIs(weight, x + 128 * r);
      TimesIs(128 * weight, r);
      assert weight * (x + 128 * r) == weight * x + 128 * weight * r;
    }
  }

  lemma Varint64Reads(v: nat, rest: Stream)
    requires v < TWO_64
    ensures DecodeVarint64(EncodeVarint(v) + rest) == Some(Got(v, rest))
  {
    var s := EncodeVarint(v) + rest;
    assert s[..|EncodeVarint(v)|] == EncodeVarint(v) && s[|EncodeVarint(v)|..] == rest;
    Varint64RoundTrip(s, 0, |s|, v);
  }

  lemma Varint32Reads(v: nat, rest: Stream)
    requires v < TWO_32
    ensures DecodeVarint32(EncodeVarint(v) + rest) == Some(Got(v, rest))
  {
    var s := EncodeVarint(v) + rest;
    assert s[..|EncodeVarint(v)|] == EncodeVarint(v) && s[|EncodeVarint(v)|..] == rest;
    Fits32(v);
    VarintRoundTrip(s, 0, |s|, v, 5);
  }

  // ------------------------------------------------------------------ numbers

  /** How many values a C integer of this many bytes has; 0 for sizes the codec refuses. */
  function Range(size: nat): nat {
    if size == 1 then 0x100 else if size == 2 then 0x1_0000 else if size == 4 then TWO_32
    else if size == 8 then TWO_64 else 0
  }

  predicate FitsUnsigned(size: nat, n: int) {
    0 <= n < Range(size)
  }

  predicate FitsSigned(size: nat, n: int) {
    -2 * n <= Range(size) && 2 * n < Range(size)
  }

  /** The cast to a signed integer of this many bytes. */
  function Signed(size: nat, u: int): (n: int)
    requires Range(size) > 0
    ensures FitsSigned(size, n) && (FitsSigned(size, u) ==> n == u)
  {
    var low := u % Range(size);
    if 2 * low < Range(size) then low else low - Range(size)
  }

  /** The cast keeps the low bits: it changes the number by a multiple of the range. */
  lemma SignedIsCongruent(size: nat, u: int) returns (k: int)
    requires Range(size) > 0
    ensures u == Signed(size, u) + k * Range(size)
  {
    var r := Range(size);
    k := u / r;
    if 2 * (u % r) >= r {
      assert (k + 1) * r == k * r + r;
      k := k + 1;
    }
  }

  lemma SignedOfUnsigned(n: int)
    requires FitsSigned(8, n)
    ensures Signed(8, n % TWO_64) == n && (FitsSigned(4, n) ==> Signed(4, n % TWO_64) == n)
  {
    if n < 0 {
      assert n % TWO_64 == n + TWO_64;
      assert FitsSigned(4, n) ==> (n + TWO_64) % TWO_32 == n + TWO_32;
    }
  }

  /** Small magnitudes get small numbers: 0, -1, 1, -2, ... */
  function ZigZag(n: int): (u: int)
    ensures FitsSigned(8, n) ==> 0 <= u < TWO_64
  {
    if n < 0 then -2 * n - 1 else 2 * n
  }

  function UnZigZag(u: nat): int {
    if u % 2 == 1 then -(u / 2) - 1 else u / 2
  }

  lemma ZigZagUndone(n: int)
    ensures ZigZag(n) >= 0 && UnZigZag(ZigZag(n)) == n
  {
  }

  // --------------------------------------------------- keys and raw fields

  const WT_VARINT := 0
  const WT_64BIT := 1
  const WT_STRING := 2
  const WT_32BIT := 5

  function EncodeTag(wire: nat, tag: nat): seq<byte> {
    EncodeVarint(tag * 8 + wire)
  }

  datatype Key = Key(tag: nat, wire: nat, rest: Stream) | Eof(rest: Stream) | Bad

  /** A zero key ends the message, and so does the end of the stream. */
  function DecodeTag(s: Stream): (r: Key)
    ensures r.Key? ==> |r.rest| < |s|
  {
    if s == [] then Eof(s) else
      match DecodeVarint32(s)
      case None => Bad
      case Some(got) =>
        if got.value == 0 then Eof(got.rest) else Key(got.value / 8, got.value % 8, got.rest)
  }

  lemma TagReads(wire: nat, tag: nat, rest: Stream)
    requires wire < 8 && 0 < tag && tag * 8 + wire < TWO_32
    ensures DecodeTag(EncodeTag(wire, tag) + rest) == Key(tag, wire, rest)
  {
    Varint32Reads(tag * 8 + wire, rest);
  }

  function Skip(s: Stream, count: nat): Option<Stream> {
    if |s| < count then None else Some(s[count..])
  }

  function SkipVarint(s: Stream): (r: Option<Stream>)
    ensures r.Some? ==> |r.value| < |s|
  {
    if s == [] then None else if s[0] >= 128 then SkipVarint(s[1..]) else Some(s[1..])
  }

  /** A length and as many bytes. */
  function ReadString(s: Stream): (r: Option<Got<Stream>>)
    ensures r.Some? ==> |r.value.rest| < |s| && |r.value.value| < |s|
  {
    match DecodeVarint32(s)
    case None => None
    case Some(got) =>
      if |got.rest| < got.value then None else Some(Got(got.rest[..got.value], got.rest[got.value..]))
  }

  function EncodeString(data: seq<byte>): seq<byte> {
    EncodeVarint(|data|) + data
  }

  lemma StringReads(data: seq<byte>, rest: Stream)
    requires |data| < TWO_32
    ensures ReadString(EncodeString(data) + rest) == Some(Got(data, rest))
  {
    assert EncodeString(data) + rest == EncodeVarint(|data|) + (data + rest);
    Varint32Reads(|data|, data + rest);
  }

  /** A field nobody knows is skipped by its wire type alone. */
  function SkipField(s: Stream, wire: nat): (r: Option<Stream>)
    ensures r.Some? ==> |r.value| <= |s|
  {
    if wire == WT_VARINT then SkipVarint(s)
    else if wire == WT_64BIT then Skip(s, 8)
    else if wire == WT_32BIT then Skip(s, 4)
    else if wire == WT_STRING then
      match ReadString(s)
      case None => None
      case Some(got) => Some(got.rest)
    else None
  }
}
