/** Blocks of key-value pairs with shared key prefixes (table/block_builder.cc, table/block.cc). */
module Blocks {
  import opened Wrappers
  import opened Bytes
  import opened Coding

  datatype Item = Item(key: seq<byte>, value: seq<byte>)

  /** The three lengths of an entry, and where its key delta starts. */
  datatype Header = Header(shared: nat, nonShared: nat, valueLength: nat, start: nat)

  /** Three numbers, one after the other. */
  function Three(get: nat -> Option<Decoded>, p: nat): Option<Header> {
    match get(p)
    case None => None
    case Some(shared) =>
      match get(shared.next)
      case None => None
      case Some(nonShared) =>
        match get(nonShared.next)
        case None => None
        case Some(length) => Some(Header(shared.value, nonShared.value, length.value, length.next))
  }

  function Getter(data: seq<byte>, limit: nat): nat -> Option<Decoded>
    requires limit <= |data|
  {
    (q: nat) => if q <= limit then GetVarint32(data, q, limit) else None
  }

  /** All three lengths take one byte as a rule, and are read at once then. */
  function HeaderWith(get: nat -> Option<Decoded>, data: seq<byte>, p: nat, limit: nat): Option<Header>
    requires p <= limit <= |data|
  {
    if limit - p < 3 then None
    else if data[p] < 128 && data[p + 1] < 128 && data[p + 2] < 128 then
      Some(Header(data[p] as int, data[p + 1] as int, data[p + 2] as int, p + 3))
    else Three(get, p)
  }

  /** The header of an entry that ends before the limit. */
  function DecodeEntry(get: nat -> Option<Decoded>, data: seq<byte>, p: nat, limit: nat): (r: Option<Header>)
    requires p <= limit <= |data|
    ensures r.Some? ==> r.value.start + r.value.nonShared + r.value.valueLength <= limit
  {
    var h := HeaderWith(get, data, p, limit);
    if h.Some? && h.value.start + h.value.nonShared + h.value.valueLength <= limit then h else None
  }

  /** The lengths that are stored fit in 32 bits. */
  ghost predicate Storable(item: Item) {
    |item.key| < TWO_32 && |item.value| < TWO_32
  }

  /** A number is read at `p`, and what follows it at `q`; its first byte tells whether it is the only one. */
  ghost predicate NumberAt(get: nat -> Option<Decoded>, data: seq<byte>, p: nat, v: nat, q: nat) {
    && p < q <= |data| && get(p) == Some(Decoded(v, q))
    && if v < 128 then data[p] as int == v && q == p + 1 else data[p] >= 128
  }

  /** Numbers that were written are read back. */
  ghost predicate ReadsNumbers(get: nat -> Option<Decoded>, put: nat -> seq<byte>, data: seq<byte>, limit: nat) {
    forall p: nat, v: nat :: v < TWO_32 && Stands(data, p, put(v)) && p + |put(v)| <= limit ==>
      NumberAt(get, data, p, v, p + |put(v)|)
  }

  lemma GetterReadsNumbers(data: seq<byte>, limit: nat)
    requires limit <= |data|
    ensures ReadsNumbers(Getter(data, limit), EncodeVarint, data, limit)
  {
    forall p: nat, v: nat | v < TWO_32 && Stands(data, p, EncodeVarint(v)) && p + |EncodeVarint(v)| <= limit
      ensures NumberAt(Getter(data, limit), data, p, v, p + |EncodeVarint(v)|)
    {
      assert data[p] == data[p..p + |EncodeVarint(v)|][0];
      Varint32RoundTrip(data, p, limit, v);
    }
  }

  lemma HeaderStands(get: nat -> Option<Decoded>, data: seq<byte>, limit: nat,
                     p: nat, x: nat, q: nat, y: nat, r: nat, z: nat, e: nat)
    requires NumberAt(get, data, p, x, q) && NumberAt(get, data, q, y, r) && NumberAt(get, data, r, z, e)
          && e <= limit <= |data|
    ensures HeaderWith(get, data, p, limit) == Some(Header(x, y, z, e))
  {
  }

  /** An entry stands at `p`, behind the key `prev`, and the next one at `next`. */
  ghost predicate EntryStands(get: nat -> Option<Decoded>, data: seq<byte>, limit: nat, p: nat, prev: seq<byte>,
                              item: Item, next: nat)
    requires limit <= |data|
  {
    p < next <= limit &&
    match DecodeEntry(get, data, p, limit)
    case None => false
    case Some(h) =>
      && p < h.start && h.shared <= |prev|
      && item.key == prev[..h.shared] + data[h.start..h.start + h.nonShared]
      && item.value == data[h.start + h.nonShared..h.start + h.nonShared + h.valueLength]
      && next == h.start + h.nonShared + h.valueLength
  }

  function EncodeWith(put: nat -> seq<byte>, shared: nat, item: Item): seq<byte>
    requires shared <= |item.key|
  {
    put(shared) + (put(|item.key| - shared) + (put(|item.value|) + (item.key[shared..] + item.value)))
  }

  /** The lengths of an encoded entry are read back. */
  lemma LengthsRoundTrip(get: nat -> Option<Decoded>, put: nat -> seq<byte>, data: seq<byte>, limit: nat, p: nat,
                         shared: nat, item: Item)
    requires Storable(item) && shared <= |item.key| && ReadsNumbers(get, put, data, limit)
    requires Stands(data, p, EncodeWith(put, shared, item)) && p + |EncodeWith(put, shared, item)| <= limit <= |data|
    ensures var start := p + |put(shared)| + |put(|item.key| - shared)| + |put(|item.value|)|;
            && HeaderWith(get, data, p, limit) == Some(Header(shared, |item.key| - shared, |item.value|, start))
            && Stands(data, start, item.key[shared..] + item.value)
  {
    var a, b, c := put(shared), put(|item.key| - shared), put(|item.value|);
    PartsStand(data, p, a, b, c, item.key[shared..] + item.value);
    HeaderStands(get, data, limit, p, shared, p + |a|, |item.key| - shared, p + |a| + |b|, |item.value|,
                 p + |a| + |b| + |c|);
  }

  lemma PartsStand(data: seq<byte>, p: nat, a: seq<byte>, b: seq<byte>, c: seq<byte>, rest: seq<byte>)
    requires Stands(data, p, a + (b + (c + rest)))
    ensures Stands(data, p, a) && Stands(data, p + |a|, b) && Stands(data, p + |a| + |b|, c)
    ensures Stands(data, p + |a| + |b| + |c|, rest)
  {
    StandsParts(data, p, a, b + (c + rest));
    StandsParts(data, p + |a|, b, c + rest);
    StandsParts(data, p + |a| + |b|, c, rest);
  }

  /** What the builder writes decodes to the pair it was given. */
  lemma EntryRoundTrip(get: nat -> Option<Decoded>, put: nat -> seq<byte>, data: seq<byte>, limit: nat, p: nat,
                       prev: seq<byte>, shared: nat, item: Item)
    requires Storable(item) && shared <= |item.key| && shared <= |prev| && prev[..shared] == item.key[..shared]
    requires ReadsNumbers(get, put, data, limit) && p + |put(shared)| > p
    requires Stands(data, p, EncodeWith(put, shared, item)) && p + |EncodeWith(put, shared, item)| <= limit <= |data|
    ensures EntryStands(get, data, limit, p, prev, item, p + |EncodeWith(put, shared, item)|)
    ensures DecodeEntry(get, data, p, limit).value.shared == shared
  {
    var start := p + |put(shared)| + |put(|item.key| - shared)| + |put(|item.value|)|;
    LengthsRoundTrip(get, put, data, limit, p, shared, item);
    StandsParts(data, start, item.key[shared..], item.value);
    assert item.key == item.key[..shared] + item.key[shared..];
  }

  // ------------------------------------------------------------ whole blocks

  /** The key before the entry at `i`. */
  function KeyBefore(items: seq<Item>, i: nat): seq<byte>
    requires i <= |items|
  {
    if i == 0 then [] else items[i - 1].key
  }

  /** The entry at `i` is written from its offset to the next, sharing a prefix with the key before. */
  ghost predicate EntryWritten(put: nat -> seq<byte>, buffer: seq<byte>, items: seq<Item>, shares: seq<nat>,
                               offsets: seq<nat>, i: nat)
    requires i < |items| == |shares| && |offsets| == |items| + 1
  {
    && Storable(items[i]) && shares[i] <= |items[i].key| && shares[i] <= |KeyBefore(items, i)|
    && KeyBefore(items, i)[..shares[i]] == items[i].key[..shares[i]]
    && Stands(buffer, offsets[i], EncodeWith(put, shares[i], items[i]))
    && offsets[i + 1] == offsets[i] + |EncodeWith(put, shares[i], items[i])|
  }

  ghost predicate Written(put: nat -> seq<byte>, buffer: seq<byte>, items: seq<Item>, shares: seq<nat>,
                          offsets: seq<nat>)
  {
    && |shares| == |items| && |offsets| == |items| + 1 && offsets[0] == 0 && offsets[|items|] == |buffer|
    && forall i :: 0 <= i < |items| ==> EntryWritten(put, buffer, items, shares, offsets, i)
  }

  /** Restart points: the first entry, and others that share nothing with the key before. */
  ghost predicate Restarts(items: seq<Item>, shares: seq<nat>, points: seq<nat>) {
    && |shares| == |items| && points != [] && points[0] == 0
    && (forall j :: 0 <= j < |points| ==> points[j] <= |items| && (points[j] < |items| ==> shares[points[j]] == 0))
    && (forall j :: 0 < j < |points| ==> points[j] < |items|)
    && (forall j, k :: 0 <= j < k < |points| ==> points[j] < points[k])
  }

  lemma OneMoreEntry(put: nat -> seq<byte>, buffer: seq<byte>, items: seq<Item>, shares: seq<nat>, offsets: seq<nat>,
                     item: Item, shared: nat)
    requires Written(put, buffer, items, shares, offsets) && Storable(item)
    requires shared <= |item.key| && shared <= |KeyBefore(items, |items|)|
          && KeyBefore(items, |items|)[..shared] == item.key[..shared]
    ensures var code := EncodeWith(put, shared, item);
            Written(put, buffer + code, items + [item], shares + [shared], offsets + [|buffer| + |code|])
  {
    var code := EncodeWith(put, shared, item);
    var items', shares', offsets' := items + [item], shares + [shared], offsets + [|buffer| + |code|];
    forall i | 0 <= i < |items'| ensures EntryWritten(put, buffer + code, items', shares', offsets', i) {
      assert KeyBefore(items', i) == KeyBefore(items, i);
      if i < |items| {
        assert EntryWritten(put, buffer, items, shares, offsets, i);
        EntryStays(put, buffer, items, shares, offsets, i, code, items', shares', offsets');
      } else {
        assert items'[i] == item && shares'[i] == shared && offsets'[i] == |buffer|;
        assert (buffer + code)[|buffer|..|buffer| + |code|] == code;
      }
    }
  }

  /** What is written behind an entry does not touch it. */
  lemma EntryStays(put: nat -> seq<byte>, buffer: seq<byte>, items: seq<Item>, shares: seq<nat>, offsets: seq<nat>,
                   i: nat,
                   more: seq<byte>, items': seq<Item>, shares': seq<nat>, offsets': seq<nat>)
    requires i < |items| == |shares| && |offsets| == |items| + 1 && EntryWritten(put, buffer, items, shares, offsets, i)
    requires |items| <= |items'| == |shares'| && |offsets'| == |items'| + 1
    requires items'[i] == items[i] && shares'[i] == shares[i] && KeyBefore(items', i) == KeyBefore(items, i)
    requires offsets'[i] == offsets[i] && offsets'[i + 1] == offsets[i + 1]
    ensures EntryWritten(put, buffer + more, items', shares', offsets', i)
  {
    StandsLonger(buffer, offsets[i], EncodeWith(put, shares[i], items[i]), more);
  }

  /** The entry at `i` as a reader finds it. */
  ghost predicate EntryLaid(get: nat -> Option<Decoded>, data: seq<byte>, limit: nat, items: seq<Item>,
                            shares: seq<nat>, offsets: seq<nat>, i: nat)
    requires i < |items| == |shares| && |offsets| == |items| + 1 && limit <= |data|
  {
    && EntryStands(get, data, limit, offsets[i], KeyBefore(items, i), items[i], offsets[i + 1])
    && DecodeEntry(get, data, offsets[i], limit).value.shared == shares[i]
  }

  ghost predicate Laid(get: nat -> Option<Decoded>, data: seq<byte>, limit: nat, items: seq<Item>, shares: seq<nat>,
                       offsets: seq<nat>)
  {
    && limit <= |data|
    && |shares| == |items| && |offsets| == |items| + 1 && offsets[0] == 0 && offsets[|items|] == limit
    && forall i :: 0 <= i < |items| ==> EntryLaid(get, data, limit, items, shares, offsets, i)
  }

  lemma {:induction false} OffsetsGrow(put: nat -> seq<byte>, buffer: seq<byte>, items: seq<Item>, shares: seq<nat>,
                                       offsets: seq<nat>, i: nat)
    requires Written(put, buffer, items, shares, offsets) && i <= |items|
    ensures offsets[i] <= |buffer|
    decreases |items| - i
  {
    if i < |items| {
      assert EntryWritten(put, buffer, items, shares, offsets, i);
      OffsetsGrow(put, buffer, items, shares, offsets, i + 1);
    }
  }

  /** What was written is found again in front of the restart array. */
  lemma WrittenIsLaid(get: nat -> Option<Decoded>, put: nat -> seq<byte>, buffer: seq<byte>, tail: seq<byte>,
                      items: seq<Item>, shares: seq<nat>, offsets: seq<nat>)
    requires Written(put, buffer, items, shares, offsets) && ReadsNumbers(get, put, buffer + tail, |buffer|)
    requires forall v :: |put(v)| > 0
    ensures Laid(get, buffer + tail, |buffer|, items, shares, offsets)
  {
    forall i | 0 <= i < |items| ensures EntryLaid(get, buffer + tail, |buffer|, items, shares, offsets, i) {
      assert EntryWritten(put, buffer, items, shares, offsets, i);
      OffsetsGrow(put, buffer, items, shares, offsets, i + 1);
      var code := EncodeWith(put, shares[i], items[i]);
      assert Stands(buffer + tail, offsets[i], code);
      EntryRoundTrip(get, put, buffer + tail, |buffer|, offsets[i], KeyBefore(items, i), shares[i], items[i]);
    }
  }
}
