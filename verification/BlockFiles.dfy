/** Building a block and iterating over it (table/block_builder.cc, table/block.cc). */
module BlockFiles {
  import opened Wrappers
  import opened Bytes
  import opened Coding
  import opened Blocks

  /** The bytes of a block: entries up to `base`, then `num` restart points, then their number. */
  ghost predicate IsBlock(get: nat -> Option<Decoded>, data: seq<byte>, base: nat, num: nat, items: seq<Item>,
                          shares: seq<nat>, offsets: seq<nat>, points: seq<nat>)
  {
    && base <= |data| && Laid(get, data, base, items, shares, offsets)
    && Restarts(items, shares, points) && num == |points| && base + 4 * num <= |data|
    && forall j :: 0 <= j < num ==> Fixed32At(data, base, j) == offsets[points[j]]
  }

  /** The restart points lie this many entries apart. */
  ghost predicate Every(points: seq<nat>, interval: nat) {
    forall j :: 0 < j < |points| ==> points[j] == points[j - 1] + interval
  }

  class BlockBuilder {
    const interval: nat
    const put: nat -> seq<byte>      // how a length is written
    var buffer: seq<byte>
    var restarts: seq<uint32>
    var counter: nat
    var lastKey: seq<byte>
    var finished: bool
    ghost var items: seq<Item>
    ghost var shares: seq<nat>
    ghost var offsets: seq<nat>
    ghost var points: seq<nat>

    ghost predicate Valid()
      reads this
    {
      && interval >= 1 && Written(put, buffer, items, shares, offsets) && Restarts(items, shares, points)
      && PointsKnown(restarts, offsets, points)
      && lastKey == KeyBefore(items, |items|) && counter <= interval && points[|points| - 1] + counter == |items|
      && Every(points, interval)
    }

    constructor (interval: nat, put: nat -> seq<byte>)
      requires interval >= 1
      ensures Valid() && !finished && items == [] && this.interval == interval && this.put == put
    {
      this.interval := interval;
      this.put := put;
      buffer, lastKey := [], [];
      restarts := [0];
      counter := 0;
      finished := false;
      items, shares, offsets, points := [], [], [0], [0];
    }

    /** Adds a pair.  A key shares all of its common prefix with the one before, but for every `interval`-th,
        which shares nothing. */
    method Add(key: seq<byte>, value: seq<byte>)
      requires Valid() && !finished && Storable(Item(key, value)) && |buffer| < TWO_32
      modifies this
      ensures Valid() && !finished && items == old(items) + [Item(key, value)]
      ensures points == if old(counter) < interval then old(points) else old(points) + [|old(items)|]
      ensures |shares| == |old(shares)| + 1 && shares[..|old(shares)|] == old(shares)
      ensures var before, n := KeyBefore(old(items), |old(items)|), shares[|old(shares)|];
              if old(counter) < interval then n < |before| && n < |key| ==> before[n] != key[n] else n == 0
    {
      var shared := 0;
      if counter < interval {
        shared := SharedPrefix(lastKey, key);
        KeepPoints(items, shares, points, shared);
      } else {
        Restart();
      }
      Append(Item(key, value), shared);
    }

    /** The next entry is a restart point. */
    method Restart()
      requires Valid() && counter == interval && |buffer| < TWO_32
      modifies this`restarts, this`points, this`counter
      ensures counter == 0 && points == old(points) + [|items|] && Every(points, interval)
      ensures PointsKnown(restarts, offsets, points) && RestartsNext(items, shares, points, 0)
    {
      NewPoint(items, shares, points, restarts, offsets, |buffer|);
      restarts := restarts + [|buffer|];
      points := points + [|items|];
      counter := 0;
    }

    method Append(item: Item, shared: nat)
      requires interval >= 1 && Written(put, buffer, items, shares, offsets)
      requires PointsKnown(restarts, offsets, points) && RestartsNext(items, shares, points, shared)
      requires lastKey == KeyBefore(items, |items|) && counter < interval && points[|points| - 1] + counter == |items|
      requires Every(points, interval)
      requires Storable(item) && shared <= |item.key| && shared <= |lastKey| && lastKey[..shared] == item.key[..shared]
      modifies this`buffer, this`lastKey, this`counter, this`items, this`shares, this`offsets
      ensures Valid() && items == old(items) + [item] && shares == old(shares) + [shared]
    {
      OneMoreEntry(put, buffer, items, shares, offsets, item, shared);
      RestartsAfter(items, shares, points, item, shared);
      PointsStay(restarts, offsets, points, |buffer| + |EncodeWith(put, shared, item)|);
      var code := EncodeWith(put, shared, item);
      buffer := buffer + code;
      lastKey := lastKey[..shared] + item.key[shared..];
      counter := counter + 1;
      items, shares, offsets := items + [item], shares + [shared], offsets + [|buffer|];
    }

    static method SharedPrefix(last: seq<byte>, key: seq<byte>) returns (shared: nat)
      ensures shared <= |last| && shared <= |key| && last[..shared] == key[..shared]
      ensures shared < |last| && shared < |key| ==> last[shared] != key[shared]
    {
      shared := 0;
      while shared < |last| && shared < |key| && last[shared] == key[shared]
        invariant shared <= |last| && shared <= |key| && last[..shared] == key[..shared]
      {
        shared := shared + 1;
      }
    }

    /** The whole block: the entries, the restart points, and their number. */
    method Finish() returns (data: seq<byte>)
      requires Valid() && !finished && |restarts| < TWO_32
      modifies this`buffer, this`finished
      ensures finished && data == old(buffer) + Fixed32s(restarts) + EncodeFixed32(|restarts|)
    {
      ghost var start := buffer;
      var i := 0;
      while i < |restarts|
        invariant i <= |restarts| && buffer == start + Fixed32s(restarts[..i])
      {
        assert restarts[..i + 1][..i] == restarts[..i];
        buffer := buffer + EncodeFixed32(restarts[i]);
        i := i + 1;
      }
      assert restarts[..i] == restarts;
      buffer := buffer + EncodeFixed32(|restarts|);
      finished := true;
      data := buffer;
    }
  }

  /** Where the restart points of a block start, and how many there are. */
  function OpenBlock(data: seq<byte>): Option<(nat, nat)> {
    if |data| < 4 then None else
      var num := DecodeFixed32(data[|data| - 4..]);
      if num > (|data| - 4) / 4 then None else Some((|data| - (1 + num) * 4, num))
  }

  lemma TrailerOpens(front: seq<byte>, base: nat, n: uint32)
    requires |front| == base + 4 * n
    ensures OpenBlock(front + EncodeFixed32(n)) == Some((base, n))
  {
    var data := front + EncodeFixed32(n);
    assert data[|data| - 4..] == EncodeFixed32(n) + [];
    Fixed32RoundTrip(n, []);
  }

  lemma RestartsRead(buffer: seq<byte>, restarts: seq<uint32>, offsets: seq<nat>, points: seq<nat>, tail: seq<byte>)
    requires PointsKnown(restarts, offsets, points)
    ensures forall j :: 0 <= j < |restarts| ==>
              Fixed32At(buffer + Fixed32s(restarts) + tail, |buffer|, j) == offsets[points[j]]
  {
    forall j | 0 <= j < |restarts|
      ensures Fixed32At(buffer + Fixed32s(restarts) + tail, |buffer|, j) == offsets[points[j]]
    {
      Fixed32sRead(buffer, restarts, tail, j);
    }
  }

  /** A finished block is opened again, and all its entries are found. */
  lemma FinishedBlockOpens(buffer: seq<byte>, restarts: seq<uint32>, items: seq<Item>, shares: seq<nat>,
                           offsets: seq<nat>, points: seq<nat>)
    requires Written(EncodeVarint, buffer, items, shares, offsets) && Restarts(items, shares, points)
    requires PointsKnown(restarts, offsets, points) && |restarts| < TWO_32
    ensures var data := buffer + Fixed32s(restarts) + EncodeFixed32(|restarts|);
            && OpenBlock(data) == Some((|buffer|, |restarts|))
            && IsBlock(Getter(data, |buffer|), data, |buffer|, |restarts|, items, shares, offsets, points)
  {
    var end := EncodeFixed32(|restarts|);
    var tail := Fixed32s(restarts) + end;
    var data := buffer + Fixed32s(restarts) + end;
    assert data == buffer + tail;
    TrailerOpens(buffer + Fixed32s(restarts), |buffer|, |restarts|);
    assert Laid(Getter(data, |buffer|), data, |buffer|, items, shares, offsets) by {
      GetterReadsNumbers(data, |buffer|);
      WrittenIsLaid(Getter(data, |buffer|), EncodeVarint, buffer, tail, items, shares, offsets);
    }
    RestartsRead(buffer, restarts, offsets, points, end);
  }

  ghost predicate PointsKnown(restarts: seq<uint32>, offsets: seq<nat>, points: seq<nat>) {
    |restarts| == |points| && forall j :: 0 <= j < |points| ==>
      points[j] < |offsets| && restarts[j] == offsets[points[j]]
  }

  lemma KeepPoints(items: seq<Item>, shares: seq<nat>, points: seq<nat>, shared: nat)
    requires Restarts(items, shares, points) && (items == [] ==> shared == 0)
    ensures RestartsNext(items, shares, points, shared)
  {
    forall j | 0 <= j < |points| ensures points[j] <= |items| && (shares + [shared])[points[j]] == 0 {
      assert points[j] < |items| ==> (shares + [shared])[points[j]] == shares[points[j]];
    }
  }

  lemma NewPoint(items: seq<Item>, shares: seq<nat>, points: seq<nat>, restarts: seq<uint32>, offsets: seq<nat>,
                 end: uint32)
    requires Restarts(items, shares, points) && PointsKnown(restarts, offsets, points) && items != []
    requires |offsets| == |items| + 1 && offsets[|items|] == end
    ensures RestartsNext(items, shares, points + [|items|], 0)
    ensures PointsKnown(restarts + [end], offsets, points + [|items|])
  {
    KeepPoints(items, shares, points, 0);
    var more := points + [|items|];
    forall j, k | 0 <= j < k < |more| ensures more[j] < more[k] {
      assert more[j] == points[j] < |items|;
    }
  }

  /** The restart points stay right when an entry with this prefix length comes next. */
  ghost predicate RestartsNext(items: seq<Item>, shares: seq<nat>, points: seq<nat>, shared: nat) {
    && |shares| == |items| && points != [] && points[0] == 0
    && (forall j :: 0 <= j < |points| ==> points[j] <= |items| && (shares + [shared])[points[j]] == 0)
    && (forall j, k :: 0 <= j < k < |points| ==> points[j] < points[k])
  }

  lemma PointsStay(restarts: seq<uint32>, offsets: seq<nat>, points: seq<nat>, end: nat)
    requires PointsKnown(restarts, offsets, points)
    ensures PointsKnown(restarts, offsets + [end], points)
  {
  }

  /** After that entry they are right for one entry more. */
  lemma RestartsAfter(items: seq<Item>, shares: seq<nat>, points: seq<nat>, item: Item, shared: nat)
    requires RestartsNext(items, shares, points, shared)
    ensures Restarts(items + [item], shares + [shared], points)
  {
  }

  /** An entry in bytes: the three lengths, what the key adds to the shared prefix, and the value. */
  lemma EntryExample()
    ensures EncodeWith(EncodeVarint, 2, Item([5, 6, 7], [8, 9])) == [2, 1, 2, 7, 8, 9]
  {
  }
}
