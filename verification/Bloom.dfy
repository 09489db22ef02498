/** Bloom filters (util/bloom.cc).  The hash function is arbitrary. */
module Bloom {
  import opened Bytes

  type Hash = seq<byte> -> uint32

  function Bits(b: byte): bv8 { (b as int) as bv8 }

  function FromBits(v: bv8): byte { (v as int) as byte }

  lemma BitsRoundTrip(v: bv8)
    ensures Bits(FromBits(v)) == v
  {
  }

  function Mask(i: nat): bv8
    requires i < 8
  {
    1 << i
  }

  predicate Bit(b: byte, i: nat)
    requires i < 8
  {
    Bits(b) & Mask(i) != 0
  }

  function SetBit(b: byte, i: nat): byte
    requires i < 8
  {
    FromBits(Bits(b) | Mask(i))
  }

  lemma OrKeeps(v: bv8, m: bv8, n: bv8)
    ensures m != 0 ==> (v | m) & m != 0
    ensures v & n != 0 ==> (v | m) & n != 0
  {
  }

  lemma SetBitSets(b: byte, i: nat, j: nat)
    requires i < 8 && j < 8
    ensures Bit(SetBit(b, i), i)
    ensures Bit(b, j) ==> Bit(SetBit(b, i), j)
  {
    BitsRoundTrip(Bits(b) | Mask(i));
    OrKeeps(Bits(b), Mask(i), Mask(j));
    MaskIsNotZero(i);
  }

  lemma MaskIsNotZero(i: nat)
    requires i < 8
    ensures Mask(i) != 0
  {
  }

  lemma MaskIs(i: nat)
    requires i < 8
    ensures Mask(i) == if i == 0 then 1 else if i == 1 then 2 else if i == 2 then 4 else if i == 3 then 8
                       else if i == 4 then 16 else if i == 5 then 32 else if i == 6 then 64 else 128
  {
  }

  lemma OrAddsOne(v: bv8, m: bv8, n: bv8)
    requires m & n == 0 && (v | m) & n != 0
    ensures v & n != 0
  {
  }

  /** No other bit is set. */
  lemma SetBitSetsOne(b: byte, i: nat, j: nat)
    requires i < 8 && j < 8 && i != j && Bit(SetBit(b, i), j)
    ensures Bit(b, j)
  {
    BitsRoundTrip(Bits(b) | Mask(i));
    MaskIs(i);
    MaskIs(j);
    OrAddsOne(Bits(b), Mask(i), Mask(j));
  }

  // ------------------------------------------------------------------- probes

  /** Rotated right by 17 bits. */
  function Delta(h: uint32): uint32 {
    h / 0x2_0000 + h % 0x2_0000 * 0x8000
  }

  /** The hash value of the probe at `j`, in 32-bit arithmetic. */
  function ProbeHash(h: uint32, delta: uint32, j: nat): uint32 {
    if j == 0 then h else (ProbeHash(h, delta, j - 1) + delta) % TWO_32
  }

  /** The position of the probe at `j` in an array of `size` bytes. */
  function Probe(h: uint32, delta: uint32, j: nat, size: nat): (pos: nat)
    requires size > 0
    ensures pos / 8 < size
  {
    ProbeHash(h, delta, j) % (8 * size)
  }

  /** The probes of a key are its hash value plus multiples of the rotated one, in 32 bits. */
  lemma {:induction false} ProbesAreMultiples(h: uint32, delta: uint32, j: nat)
    ensures ProbeHash(h, delta, j) == (h + Multiple(delta, j)) % TWO_32
  {
    if j > 0 {
      ProbesAreMultiples(h, delta, j - 1);
      AddsModulo(h + Multiple(delta, j - 1), delta);
      assert Multiple(delta, j) == Multiple(delta, j - 1) + delta by { assert j * delta == (j - 1) * delta + delta; }
    }
  }

  function Multiple(delta: nat, j: nat): (m: nat)
  {
    assert j * delta >= 0;
    j * delta
  }

  lemma AddsModulo(a: nat, d: nat)
    ensures (a % TWO_32 + d) % TWO_32 == (a + d) % TWO_32
  {
    assert a == TWO_32 * (a / TWO_32) + a % TWO_32;
  }

  /** Rotating back by 17 bits gives the hash value: the bits that leave on the left come in on the right. */
  lemma DeltaRotates(h: uint32)
    ensures Delta(h) * 0x2_0000 == h + (Delta(h) / 0x8000) * (TWO_32 - 1)
  {
  }

  /** The bit at a position of an array. */
  predicate BitAt(bytes: seq<byte>, pos: nat)
    requires pos / 8 < |bytes|
  {
    Bit(bytes[pos / 8], pos % 8)
  }

  /** All the bits that stand for a key are set. */
  ghost predicate Holds(bytes: seq<byte>, h: uint32, k: nat)
    requires |bytes| > 0
  {
    forall j :: 0 <= j < k ==> BitAt(bytes, Probe(h, Delta(h), j, |bytes|))
  }

  /** Setting bits never clears one. */
  ghost predicate MoreBits(a: seq<byte>, b: seq<byte>) {
    |a| == |b| && forall pos :: 0 <= pos < 8 * |a| && BitAt(a, pos) ==> BitAt(b, pos)
  }

  /** The position is one of the first `k` probes. */
  ghost predicate Probed(h: uint32, k: nat, size: nat, pos: nat)
    requires size > 0
  {
    exists j :: 0 <= j < k && pos == Probe(h, Delta(h), j, size)
  }

  /** Only bits that stand for the key have been set. */
  ghost predicate OnlyProbes(a: seq<byte>, b: seq<byte>, h: uint32, k: nat)
    requires |b| == |a| > 0
  {
    forall pos :: 0 <= pos < 8 * |a| && BitAt(b, pos) ==> BitAt(a, pos) || Probed(h, k, |a|, pos)
  }

  lemma OnlyNextProbe(a: seq<byte>, b: seq<byte>, c: seq<byte>, h: uint32, j: nat)
    requires |c| == |b| == |a| > 0 && OnlyProbes(a, b, h, j)
    requires OnlyBit(b, c, Probe(h, Delta(h), j, |a|))
    ensures OnlyProbes(a, c, h, j + 1)
  {
    forall pos | 0 <= pos < 8 * |a| && BitAt(c, pos) ensures BitAt(a, pos) || Probed(h, j + 1, |a|, pos) {
      if BitAt(b, pos) {
        assert BitAt(a, pos) || Probed(h, j, |a|, pos);
      } else {
        assert pos == Probe(h, Delta(h), j, |a|);
      }
    }
  }

  /** Only this bit has been set. */
  ghost predicate OnlyBit(a: seq<byte>, b: seq<byte>, pos: nat)
    requires |a| == |b|
  {
    forall q :: 0 <= q < 8 * |a| && BitAt(b, q) ==> BitAt(a, q) || q == pos
  }

  lemma MoreAndMore(a: seq<byte>, b: seq<byte>, c: seq<byte>)
    requires MoreBits(a, b) && MoreBits(b, c)
    ensures MoreBits(a, c)
  {
  }

  lemma OneMoreProbe(bytes: seq<byte>, h: uint32, j: nat)
    requires |bytes| > 0 && Holds(bytes, h, j) && BitAt(bytes, Probe(h, Delta(h), j, |bytes|))
    ensures Holds(bytes, h, j + 1)
  {
  }

  lemma NextProbe(h: uint32, delta: uint32, j: nat)
    ensures ProbeHash(h, delta, j + 1) == (ProbeHash(h, delta, j) + delta) % TWO_32
  {
  }

  method AddKey(bytes: seq<byte>, h: uint32, k: nat) returns (r: seq<byte>)
    requires |bytes| > 0
    ensures |r| == |bytes| && MoreBits(bytes, r) && Holds(r, h, k) && OnlyProbes(bytes, r, h, k)
  {
    r := bytes;
    var probe, delta := h, Delta(h);
    for j := 0 to k
      invariant |r| == |bytes| && MoreBits(bytes, r) && Holds(r, h, j) && OnlyProbes(bytes, r, h, j)
      invariant probe == ProbeHash(h, delta, j)
    {
      ghost var before := r;
      r := SetProbe(r, h, probe, j);
      MoreAndMore(bytes, before, r);
      OnlyNextProbe(bytes, before, r, h, j);
      NextProbe(h, delta, j);
      probe := (probe + delta) % TWO_32;
    }
  }

  method SetProbe(bytes: seq<byte>, ghost h: uint32, probe: uint32, ghost j: nat) returns (r: seq<byte>)
    requires |bytes| > 0 && Holds(bytes, h, j) && probe == ProbeHash(h, Delta(h), j)
    ensures MoreBits(bytes, r) && Holds(r, h, j + 1) && OnlyBit(bytes, r, Probe(h, Delta(h), j, |bytes|))
  {
    var pos := probe % (8 * |bytes|);
    assert pos == Probe(h, Delta(h), j, |bytes|);
    r := SetBitAt(bytes, pos);
    StillHolds(bytes, r, h, j);
    OneMoreProbe(r, h, j);
  }

  method SetBitAt(bytes: seq<byte>, pos: nat) returns (r: seq<byte>)
    requires pos / 8 < |bytes|
    ensures MoreBits(bytes, r) && BitAt(r, pos) && OnlyBit(bytes, r, pos)
  {
    r := bytes[pos / 8 := SetBit(bytes[pos / 8], pos % 8)];
    forall q | 0 <= q < 8 * |bytes| && BitAt(bytes, q) ensures BitAt(r, q) {
      SetBitSets(bytes[pos / 8], pos % 8, q % 8);
    }
    SetBitSets(bytes[pos / 8], pos % 8, pos % 8);
    forall q | 0 <= q < 8 * |bytes| && BitAt(r, q) && q != pos ensures BitAt(bytes, q) {
      if q / 8 == pos / 8 { SetBitSetsOne(bytes[pos / 8], pos % 8, q % 8); }
    }
  }

  lemma StillHolds(a: seq<byte>, b: seq<byte>, h: uint32, k: nat)
    requires |a| > 0 && MoreBits(a, b) && Holds(a, h, k)
    ensures Holds(b, h, k)
  {
    forall j | 0 <= j < k ensures BitAt(b, Probe(h, Delta(h), j, |b|)) {
      assert BitAt(a, Probe(h, Delta(h), j, |a|));
    }
  }

  // ------------------------------------------------------------------ filters

  /** Some key has a probe at the position. */
  ghost predicate ProbedBySome(hash: Hash, k: nat, keys: seq<seq<byte>>, size: nat, pos: nat)
    requires size > 0
  {
    exists i :: 0 <= i < |keys| && Probed(hash(keys[i]), k, size, pos)
  }

  /** The bits that are set are those that stand for one of the keys. */
  ghost predicate BitsOf(hash: Hash, k: nat, keys: seq<seq<byte>>, bitmap: seq<byte>)
    requires |bitmap| > 0
  {
    && (forall i :: 0 <= i < |keys| ==> Holds(bitmap, hash(keys[i]), k))
    && forall pos :: 0 <= pos < 8 * |bitmap| && BitAt(bitmap, pos) ==> ProbedBySome(hash, k, keys, |bitmap|, pos)
  }

  /** `filter` is a bit array for the keys, and the number of probes. */
  ghost predicate IsFilter(hash: Hash, k: nat, keys: seq<seq<byte>>, filter: seq<byte>) {
    && |filter| >= 9 && k < 256 && filter[|filter| - 1] as int == k
    && BitsOf(hash, k, keys, filter[..|filter| - 1])
  }

  /** Appends a filter for the keys; `k` is the number of probes that the policy chose. */
  method CreateFilter(hash: Hash, bitsPerKey: nat, k: nat, keys: seq<seq<byte>>, dst: seq<byte>) returns (r: seq<byte>)
    requires 1 <= k <= 30
    ensures |dst| <= |r| && r[..|dst|] == dst && IsFilter(hash, k, keys, r[|dst|..])
    ensures |r| - |dst| - 1 == (if |keys| * bitsPerKey < 64 then 8 else (|keys| * bitsPerKey + 7) / 8)
  {
    var bits := |keys| * bitsPerKey;
    if bits < 64 {
      bits := 64;
    }
    var bytes := (bits + 7) / 8;
    var bitmap := seq(bytes, _ => 0);
    NoBits(bitmap);
    for i := 0 to |keys|
      invariant |bitmap| == bytes && BitsOf(hash, k, keys[..i], bitmap)
    {
      ghost var before := bitmap;
      bitmap := AddKey(bitmap, hash(keys[i]), k);
      BitsOfOneMore(hash, k, keys[..i], before, keys[i], bitmap);
      assert keys[..i + 1] == keys[..i] + [keys[i]];
    }
    assert keys[..|keys|] == keys;
    r := dst + bitmap + [k as byte];
    assert r[|dst|..] == bitmap + [k as byte];
    assert r[|dst|..][..bytes] == bitmap;
  }

  lemma NoBits(bitmap: seq<byte>)
    requires forall i :: 0 <= i < |bitmap| ==> bitmap[i] == 0
    ensures forall pos :: 0 <= pos < 8 * |bitmap| ==> !BitAt(bitmap, pos)
  {
    forall pos | 0 <= pos < 8 * |bitmap| ensures !BitAt(bitmap, pos) {
      assert Bits(0) & Mask(pos % 8) == 0;
    }
  }

  lemma BitsOfOneMore(hash: Hash, k: nat, keys: seq<seq<byte>>, before: seq<byte>, key: seq<byte>, after: seq<byte>)
    requires |before| == |after| > 0 && BitsOf(hash, k, keys, before)
    requires MoreBits(before, after) && Holds(after, hash(key), k) && OnlyProbes(before, after, hash(key), k)
    ensures BitsOf(hash, k, keys + [key], after)
  {
    var all := keys + [key];
    forall i | 0 <= i < |all| ensures Holds(after, hash(all[i]), k) {
      if i < |keys| { StillHolds(before, after, hash(keys[i]), k); }
    }
    forall pos | 0 <= pos < 8 * |after| && BitAt(after, pos) ensures ProbedBySome(hash, k, all, |after|, pos) {
      if BitAt(before, pos) {
        var i :| 0 <= i < |keys| && Probed(hash(keys[i]), k, |after|, pos);
        assert Probed(hash(all[i]), k, |after|, pos);
      } else {
        assert Probed(hash(all[|keys|]), k, |after|, pos);
      }
    }
  }

  method KeyMayMatch(hash: Hash, key: seq<byte>, filter: seq<byte>) returns (r: bool)
    ensures r == MayMatch(hash, key, filter)
    ensures |filter| < 2 ==> !r
    ensures |filter| >= 2 && filter[|filter| - 1] > 30 ==> r
  {
    var len := |filter|;
    if len < 2 {
      return false;
    }
    var k := filter[len - 1] as int;
    if k > 30 {
      return true;
    }
    r := ProbesHold(filter[..len - 1], hash(key), k);
  }

  /** The loop of KeyMayMatch: `k` probes, the first unset bit decides. */
  method ProbesHold(bytes: seq<byte>, h: uint32, k: nat) returns (r: bool)
    requires |bytes| > 0
    ensures r == Holds(bytes, h, k)
  {
    var probe, delta := h, Delta(h);
    for j := 0 to k
      invariant Holds(bytes, h, j) && probe == ProbeHash(h, delta, j)
    {
      var pos := probe % (8 * |bytes|);
      assert pos == Probe(h, delta, j, |bytes|);
      if !BitAt(bytes, pos) {
        return false;
      }
      OneMoreProbe(bytes, h, j);
      NextProbe(h, delta, j);
      probe := (probe + delta) % TWO_32;
    }
    return true;
  }

  /** Short filters match nothing, unknown encodings everything. */
  ghost predicate MayMatch(hash: Hash, key: seq<byte>, filter: seq<byte>) {
    |filter| >= 2
      && (filter[|filter| - 1] > 30 || Holds(filter[..|filter| - 1], hash(key), filter[|filter| - 1] as int))
  }

  /** A filter never denies a key it was made for. */
  lemma NoFalseNegatives(hash: Hash, k: nat, keys: seq<seq<byte>>, filter: seq<byte>, key: seq<byte>)
    requires IsFilter(hash, k, keys, filter) && key in keys
    ensures MayMatch(hash, key, filter)
  {
    var i :| 0 <= i < |keys| && keys[i] == key;
    assert Holds(filter[..|filter| - 1], hash(keys[i]), k);
  }

  /** The key cannot be told from the keys: each of its probes is a probe of one of them. */
  ghost predicate Resembles(hash: Hash, k: nat, keys: seq<seq<byte>>, size: nat, key: seq<byte>)
    requires size > 0
  {
    forall j :: 0 <= j < k ==> ProbedBySome(hash, k, keys, size, Probe(hash(key), Delta(hash(key)), j, size))
  }

  /** A filter lets a key pass if and only if each of its probes falls on a probe of a key it was made
      for. */
  lemma MatchesExactlyWhen(hash: Hash, k: nat, keys: seq<seq<byte>>, filter: seq<byte>, key: seq<byte>)
    requires IsFilter(hash, k, keys, filter) && k <= 30
    ensures MayMatch(hash, key, filter) <==> Resembles(hash, k, keys, |filter| - 1, key)
  {
    var bitmap, h := filter[..|filter| - 1], hash(key);
    forall j | 0 <= j < k
      ensures BitAt(bitmap, Probe(h, Delta(h), j, |bitmap|))
         <==> ProbedBySome(hash, k, keys, |bitmap|, Probe(h, Delta(h), j, |bitmap|))
    {
      ProbeIsSet(hash, k, keys, bitmap, Probe(h, Delta(h), j, |bitmap|));
    }
  }

  lemma ProbeIsSet(hash: Hash, k: nat, keys: seq<seq<byte>>, bitmap: seq<byte>, pos: nat)
    requires |bitmap| > 0 && pos < 8 * |bitmap| && BitsOf(hash, k, keys, bitmap)
    ensures BitAt(bitmap, pos) <==> ProbedBySome(hash, k, keys, |bitmap|, pos)
  {
    if ProbedBySome(hash, k, keys, |bitmap|, pos) {
      var i :| 0 <= i < |keys| && Probed(hash(keys[i]), k, |bitmap|, pos);
      assert Holds(bitmap, hash(keys[i]), k);
    }
  }
}
