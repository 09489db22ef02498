/** Filter blocks: one filter for the keys of every two kilobytes of data (table/filter_block.cc). */
module FilterBlocks {
  import opened Bytes
  import opened Bloom

  const BASE_LG: nat := 11
  const BASE: nat := 2048

  function Flat(keys: seq<seq<byte>>): seq<byte> {
    if keys == [] then [] else Flat(keys[..|keys| - 1]) + keys[|keys| - 1]
  }

  /** The keys as they are stored: one after the other, and where each starts. */
  ghost predicate Stored(keys: seq<byte>, start: seq<nat>, pending: seq<seq<byte>>) {
    && |start| == |pending| && keys == Flat(pending)
    && forall i :: 0 <= i < |pending| ==> start[i] == |Flat(pending[..i])|
  }

  /** Offsets as they are written, in 32 bits. */
  function Words(offsets: seq<nat>): (r: seq<uint32>)
    ensures |r| == |offsets|
  {
    seq(|offsets|, i requires 0 <= i < |offsets| => offsets[i] % TWO_32)
  }

  lemma SmallWords(hash: Hash, k: nat, result: seq<byte>, offsets: seq<nat>, filters: seq<seq<seq<byte>>>)
    requires Filters(hash, k, result, offsets, filters) && |result| < TWO_32
    ensures Words(offsets) == offsets
  {
    forall i | 0 <= i < |offsets| ensures Words(offsets)[i] == offsets[i] {
      assert FilterAt(hash, k, result, offsets, filters, i);
    }
  }

  /** Where the filter at `i` ends. */
  function Limit(offsets: seq<nat>, end: nat, i: nat): nat
    requires i < |offsets|
  {
    if i + 1 < |offsets| then offsets[i + 1] else end
  }

  /** The filter at `i` holds its keys; without keys it is empty. */
  ghost predicate FilterAt(hash: Hash, k: nat, result: seq<byte>, offsets: seq<nat>, filters: seq<seq<seq<byte>>>,
                           i: nat)
    requires i < |offsets| == |filters|
  {
    var lo, hi := offsets[i], Limit(offsets, |result|, i);
    && lo <= hi <= |result|
    && if filters[i] == [] then lo == hi else IsFilter(hash, k, filters[i], result[lo..hi])
  }

  ghost predicate Filters(hash: Hash, k: nat, result: seq<byte>, offsets: seq<nat>, filters: seq<seq<seq<byte>>>) {
    && |offsets| == |filters|
    && forall i :: 0 <= i < |filters| ==> FilterAt(hash, k, result, offsets, filters, i)
  }

  /** Every key is in the filter of its block, or waits for it. */
  ghost predicate Kept(added: seq<(nat, seq<byte>)>, filters: seq<seq<seq<byte>>>, pending: seq<seq<byte>>) {
    forall a :: a in added ==>
      var i := a.0 / BASE;
      if i < |filters| then a.1 in filters[i] else i == |filters| && a.1 in pending
  }

  /** The key was added while the offset of the block lay in this range. */
  ghost predicate AddedIn(added: seq<(nat, seq<byte>)>, i: nat, key: seq<byte>) {
    exists a :: a in added && a.0 / BASE == i && a.1 == key
  }

  /** And the filters hold no other keys. */
  ghost predicate Gathered(added: seq<(nat, seq<byte>)>, filters: seq<seq<seq<byte>>>, pending: seq<seq<byte>>) {
    && (forall i, key :: 0 <= i < |filters| && key in filters[i] ==> AddedIn(added, i, key))
    && forall key :: key in pending ==> AddedIn(added, |filters|, key)
  }

  lemma GatheredGrows(added: seq<(nat, seq<byte>)>, filters: seq<seq<seq<byte>>>, pending: seq<seq<byte>>,
                      a: (nat, seq<byte>))
    requires Gathered(added, filters, pending) && a.0 / BASE == |filters|
    ensures Gathered(added + [a], filters, pending + [a.1])
  {
    var all := added + [a];
    assert a in all;
    forall i, key | AddedIn(added, i, key) ensures AddedIn(all, i, key) {
      var b :| b in added && b.0 / BASE == i && b.1 == key;
      assert b in all;
    }
  }

  lemma OneMoreFilter(hash: Hash, k: nat, result: seq<byte>, offsets: seq<nat>, filters: seq<seq<seq<byte>>>,
                      result': seq<byte>, keys: seq<seq<byte>>)
    requires Filters(hash, k, result, offsets, filters)
    requires |result| <= |result'| && result'[..|result|] == result
    requires if keys == [] then result' == result else IsFilter(hash, k, keys, result'[|result|..])
    ensures Filters(hash, k, result', offsets + [|result|], filters + [keys])
  {
    var offsets', filters' := offsets + [|result|], filters + [keys];
    forall i | 0 <= i < |filters'| ensures FilterAt(hash, k, result', offsets', filters', i) {
      if i < |filters| {
        assert FilterAt(hash, k, result, offsets, filters, i);
        var lo, hi := offsets[i], Limit(offsets, |result|, i);
        assert Limit(offsets', |result'|, i) == hi && result'[..|result|][lo..hi] == result'[lo..hi];
      } else {
        assert result'[|result|..|result'|] == result'[|result|..];
      }
    }
  }

  class FilterBlockBuilder {
    const hash: Hash
    const bitsPerKey: nat
    const k: nat
    var keys: seq<byte>
    var start: seq<nat>
    var result: seq<byte>
    var filterOffsets: seq<nat>
    ghost var pending: seq<seq<byte>>               // the keys since the last filter
    ghost var filters: seq<seq<seq<byte>>>          // the keys of every filter
    ghost var block: nat                            // the offset of the data block being filled
    ghost var added: seq<(nat, seq<byte>)>          // all keys, with the offset of their block

    ghost predicate Valid()
      reads this
    {
      && 1 <= k <= 30 && Stored(keys, start, pending)
      && Filters(hash, k, result, filterOffsets, filters)
      && block / BASE == |filters| && Kept(added, filters, pending) && Gathered(added, filters, pending)
    }

    constructor (hash: Hash, bitsPerKey: nat, k: nat)
      requires 1 <= k <= 30
      ensures Valid() && added == [] && block == 0 && this.hash == hash
    {
      this.hash, this.bitsPerKey, this.k := hash, bitsPerKey, k;
      keys, start, result, filterOffsets := [], [], [], [];
      pending, filters, block, added := [], [], 0, [];
    }

    /** A data block starts at this offset. */
    method StartBlock(blockOffset: nat)
      requires Valid() && blockOffset / BASE >= |filterOffsets|
      modifies this
      ensures Valid() && block == blockOffset && added == old(added)
    {
      var filterIndex := blockOffset / BASE;
      block := blockOffset;
      while filterIndex > |filterOffsets|
        invariant Stored(keys, start, pending) && Filters(hash, k, result, filterOffsets, filters)
        invariant Kept(added, filters, pending) && Gathered(added, filters, pending)
        invariant added == old(added) && block == blockOffset
        invariant |filters| <= filterIndex
      {
        GenerateFilter();
      }
    }

    method AddKey(key: seq<byte>)
      requires Valid()
      modifies this
      ensures Valid() && block == old(block) && added == old(added) + [(block, key)]
    {
      assert (pending + [key])[..|pending|] == pending;
      forall i | 0 <= i <= |pending| ensures (pending + [key])[..i] == pending[..i] {}
      GatheredGrows(added, filters, pending, (block, key));
      start := start + [|keys|];
      keys := keys + key;
      pending := pending + [key];
      added := added + [(block, key)];
    }

    /** The whole filter block, as long as the filters stay below four gigabytes: it denies no key that was
        added, and each range answers as a filter for exactly the keys added there. */
    method Finish() returns (contents: seq<byte>)
      requires Valid()
      modifies this
      ensures added == old(added)
      ensures |result| < TWO_32 ==> NoneDenied(hash, contents, added)
      ensures |result| < TWO_32 ==> AnswersFor(hash, k, contents, filters)
      ensures Kept(added, filters, []) && Gathered(added, filters, [])
    {
      if start != [] {
        GenerateFilter();
      }
      contents := AppendOffsets();
      if |result| < TWO_32 {
        NoneIsDenied(hash, k, result, filterOffsets, filters, added);
        BlockAnswers(hash, k, result, filterOffsets, filters);
      }
    }

    method AppendOffsets() returns (contents: seq<byte>)
      ensures |result| < TWO_32 ==> contents == Contents(result, Words(filterOffsets))
    {
      var offsets := PutOffsets(filterOffsets);
      contents := result + offsets + EncodeFixed32(|result| % TWO_32) + [BASE_LG as byte];
    }

    static method PutOffsets(offsets: seq<nat>) returns (r: seq<byte>)
      ensures r == Fixed32s(Words(offsets))
    {
      r := [];
      for i := 0 to |offsets|
        invariant r == Fixed32s(Words(offsets[..i]))
      {
        assert Words(offsets[..i + 1])[..i] == Words(offsets[..i]);
        r := r + EncodeFixed32(offsets[i] % TWO_32);
      }
      assert offsets[..|offsets|] == offsets;
    }

    method GenerateFilter()
      requires 1 <= k <= 30 && Stored(keys, start, pending) && Filters(hash, k, result, filterOffsets, filters)
      requires Kept(added, filters, pending) && Gathered(added, filters, pending)
      modifies this`keys, this`start, this`result, this`filterOffsets, this`pending, this`filters
      ensures Stored(keys, start, pending) && Filters(hash, k, result, filterOffsets, filters)
      ensures Kept(added, filters, pending) && Gathered(added, filters, pending)
      ensures filters == old(filters) + [old(pending)] && pending == []
    {
      var numKeys := |start|;
      ghost var was := result;
      if numKeys == 0 {
        OneMoreFilter(hash, k, was, filterOffsets, filters, result, pending);
        filterOffsets := filterOffsets + [|result|];
      } else {
        var tmpKeys := SplitKeys();
        var more := CreateFilter(hash, bitsPerKey, k, tmpKeys, result);
        OneMoreFilter(hash, k, was, filterOffsets, filters, more, pending);
        filterOffsets := filterOffsets + [|result|];
        result := more;
      }
      filters := filters + [pending];
      keys, start, pending := [], [], [];
    }

    /** The list of keys from the flattened key structure. */
    method SplitKeys() returns (r: seq<seq<byte>>)
      requires Stored(keys, start, pending)
      ensures r == pending
    {
      r := [];
      for i := 0 to |start|
        invariant r == pending[..i]
      {
        var limit := if i + 1 < |start| then start[i + 1] else |keys|;
        KeyAt(pending, i);
        r := r + [keys[start[i]..limit]];
      }
    }
  }

  lemma {:induction false} KeyAt(pending: seq<seq<byte>>, i: nat)
    requires i < |pending|
    ensures |Flat(pending[..i])| + |pending[i]| == |Flat(pending[..i + 1])| <= |Flat(pending)|
    ensures Flat(pending)[|Flat(pending[..i])|..|Flat(pending[..i + 1])|] == pending[i]
    ensures i + 1 == |pending| ==> Flat(pending[..i + 1]) == Flat(pending)
    decreases |pending|
  {
    var init := pending[..|pending| - 1];
    if i == |init| {
      assert pending[..i + 1] == pending && pending[..i] == init;
    } else {
      KeyAt(init, i);
      assert init[..i] == pending[..i] && init[..i + 1] == pending[..i + 1];
      var lo, hi := |Flat(pending[..i])|, |Flat(pending[..i + 1])|;
      assert Flat(pending)[..|Flat(init)|] == Flat(init);
      assert Flat(pending)[lo..hi] == Flat(init)[lo..hi];
    }
  }

  // ------------------------------------------------------------------ reading

  /** The filters, where each starts, where these offsets start, and the base of the scheme. */
  ghost function Contents(result: seq<byte>, offsets: seq<uint32>): seq<byte>
    requires |result| < TWO_32
  {
    result + Fixed32s(offsets) + EncodeFixed32(|result|) + [BASE_LG as byte]
  }

  /** Whether the block at this offset may hold the key; anything unexpected counts as a match. */
  ghost predicate FilterMayMatch(hash: Hash, contents: seq<byte>, blockOffset: nat, key: seq<byte>) {
    var n := |contents|;
    if n < 5 then true else
      var lastWord := DecodeFixed32(contents[n - 5..]);
      if lastWord > n - 5 then true else
        var num := (n - 5 - lastWord) / 4;
        var index := Index(blockOffset, contents[n - 1]);
        index < num ==> MayMatchAt(hash, contents, lastWord, index, key)
  }

  /** The answer of the filter at `i`, whose offset stands behind position `at`. */
  ghost predicate MayMatchAt(hash: Hash, contents: seq<byte>, at: nat, i: nat, key: seq<byte>)
    requires at + 4 * i + 8 <= |contents|
  {
    var start, limit := Fixed32At(contents, at, i), Fixed32At(contents, at, i + 1);
    if start <= limit <= at then MayMatch(hash, key, contents[start..limit]) else start != limit
  }

  ghost predicate NoneDenied(hash: Hash, contents: seq<byte>, added: seq<(nat, seq<byte>)>) {
    forall a :: a in added ==> FilterMayMatch(hash, contents, a.0, a.1)
  }

  /** The offset shifted right. */
  function Index(offset: nat, lg: byte): nat
    decreases lg as int
  {
    if lg == 0 then offset else Index(offset / 2, lg - 1)
  }

  lemma IndexIsQuotient(offset: nat)
    ensures Index(offset, BASE_LG as byte) == offset / BASE
  {
    var a := offset / 2 / 2 / 2 / 2;
    var b := a / 2 / 2 / 2 / 2;
    assert Index(b, 3) == Index(b / 2, 2) == Index(b / 2 / 2, 1) == Index(b / 2 / 2 / 2, 0);
    assert Index(a, 7) == Index(a / 2, 6) == Index(a / 2 / 2, 5) == Index(a / 2 / 2 / 2, 4) == Index(b, 3);
    assert Index(offset, 11) == Index(offset / 2, 10) == Index(offset / 2 / 2, 9) == Index(offset / 2 / 2 / 2, 8)
        == Index(a, 7);
  }

  lemma TrailerFields(result: seq<byte>, offsets: seq<uint32>)
    requires |result| < TWO_32
    ensures var contents, n := Contents(result, offsets), |Contents(result, offsets)|;
            && n == |result| + 4 * |offsets| + 5 && contents[n - 1] == BASE_LG as byte
            && DecodeFixed32(contents[n - 5..]) == |result|
            && contents[..|result|] == result
  {
    var contents, n := Contents(result, offsets), |Contents(result, offsets)|;
    assert contents[n - 5..] == EncodeFixed32(|result|) + [BASE_LG as byte];
    Fixed32RoundTrip(|result|, [BASE_LG as byte]);
  }

  /** The offsets are read back, and the end of the filters behind them. */
  lemma OffsetsRead(result: seq<byte>, offsets: seq<uint32>, i: nat)
    requires |result| < TWO_32 && i < |offsets|
    ensures var contents := Contents(result, offsets);
            && |result| + 4 * (i + 1) + 4 <= |contents|
            && Fixed32At(contents, |result|, i) == offsets[i]
            && Fixed32At(contents, |result|, i + 1) == Limit(offsets, |result|, i)
  {
    var all, base := offsets + [|result|], [BASE_LG as byte];
    assert all[..|offsets|] == offsets;
    assert Contents(result, offsets) == result + Fixed32s(all) + base;
    Fixed32sRead(result, all, base, i);
    Fixed32sRead(result, all, base, i + 1);
  }

  /** The filters are read back. */
  lemma FilterRead(result: seq<byte>, offsets: seq<uint32>, lo: nat, hi: nat)
    requires lo <= hi <= |result| < TWO_32
    ensures |result| <= |Contents(result, offsets)| && Contents(result, offsets)[lo..hi] == result[lo..hi]
  {
    var contents := Contents(result, offsets);
    assert contents[..|result|] == result;
    assert contents[lo..hi] == contents[..|result|][lo..hi];
  }

  /** The reader finds the filter of the block at this offset. */
  lemma ReaderFindsFilter(hash: Hash, result: seq<byte>, offsets: seq<uint32>, blockOffset: nat, key: seq<byte>)
    requires |result| < TWO_32 && blockOffset / BASE < |offsets|
    requires var i := blockOffset / BASE; offsets[i] <= Limit(offsets, |result|, i) <= |result|
    ensures var i := blockOffset / BASE;
            FilterMayMatch(hash, Contents(result, offsets), blockOffset, key)
              == MayMatch(hash, key, result[offsets[i]..Limit(offsets, |result|, i)])
  {
    var i := blockOffset / BASE;
    TrailerFields(result, offsets);
    IndexIsQuotient(blockOffset);
    OffsetsRead(result, offsets, i);
    FilterRead(result, offsets, offsets[i], Limit(offsets, |result|, i));
    FilterFound(hash, Contents(result, offsets), blockOffset, key, |result|, i, offsets[i],
                Limit(offsets, |result|, i));
  }

  lemma FilterFound(hash: Hash, contents: seq<byte>, blockOffset: nat, key: seq<byte>,
                    lastWord: nat, i: nat, start: nat, limit: nat)
    requires 5 <= |contents| && DecodeFixed32(contents[|contents| - 5..]) == lastWord <= |contents| - 5
    requires Index(blockOffset, contents[|contents| - 1]) == i < (|contents| - 5 - lastWord) / 4
    requires Fixed32At(contents, lastWord, i) == start && Fixed32At(contents, lastWord, i + 1) == limit
    requires start <= limit <= lastWord
    ensures FilterMayMatch(hash, contents, blockOffset, key) == MayMatch(hash, key, contents[start..limit])
  {
  }

  /** A filter block never denies a key that was added while the block at that offset was open. */
  lemma NoKeyIsDenied(hash: Hash, k: nat, result: seq<byte>, offsets: seq<uint32>, filters: seq<seq<seq<byte>>>,
                      added: seq<(nat, seq<byte>)>, a: (nat, seq<byte>))
    requires |result| < TWO_32 && Filters(hash, k, result, offsets, filters) && Kept(added, filters, []) && a in added
    ensures FilterMayMatch(hash, Contents(result, offsets), a.0, a.1)
  {
    var i := a.0 / BASE;
    assert FilterAt(hash, k, result, offsets, filters, i);
    ReaderFindsFilter(hash, result, offsets, a.0, a.1);
    NoFalseNegatives(hash, k, filters[i], result[offsets[i]..Limit(offsets, |result|, i)], a.1);
  }

  lemma NoneIsDenied(hash: Hash, k: nat, result: seq<byte>, offsets: seq<nat>, filters: seq<seq<seq<byte>>>,
                     added: seq<(nat, seq<byte>)>)
    requires |result| < TWO_32 && Filters(hash, k, result, offsets, filters) && Kept(added, filters, [])
    ensures NoneDenied(hash, Contents(result, Words(offsets)), added)
  {
    SmallWords(hash, k, result, offsets, filters);
    forall a | a in added ensures FilterMayMatch(hash, Contents(result, Words(offsets)), a.0, a.1) {
      NoKeyIsDenied(hash, k, result, Words(offsets), filters, added, a);
    }
  }

  /** A filter of some size for the keys lets this one pass; none does without keys. */
  ghost predicate Passes(hash: Hash, k: nat, keys: seq<seq<byte>>, key: seq<byte>) {
    keys != [] && exists size :: 0 < size && Resembles(hash, k, keys, size, key)
  }

  /** Where the offset lies in the range of a filter, the key is denied unless each of its probes falls on a
      probe of a key of that range; anywhere else it may match. */
  ghost predicate AnswersFor(hash: Hash, k: nat, contents: seq<byte>, filters: seq<seq<seq<byte>>>) {
    forall offset: nat, key :: FilterMayMatch(hash, contents, offset, key) ==>
      offset / BASE < |filters| ==> Passes(hash, k, filters[offset / BASE], key)
  }

  lemma BlockAnswers(hash: Hash, k: nat, result: seq<byte>, offsets: seq<nat>, filters: seq<seq<seq<byte>>>)
    requires |result| < TWO_32 && Filters(hash, k, result, offsets, filters) && k <= 30
    ensures AnswersFor(hash, k, Contents(result, Words(offsets)), filters)
  {
    SmallWords(hash, k, result, offsets, filters);
    forall offset: nat, key | offset / BASE < |filters| && FilterMayMatch(hash, Contents(result, offsets), offset, key)
      ensures Passes(hash, k, filters[offset / BASE], key)
    {
      ReaderAnswers(hash, k, result, offsets, filters, offset, key);
    }
  }

  /** The answer of the reader, exactly. */
  lemma ReaderAnswers(hash: Hash, k: nat, result: seq<byte>, offsets: seq<uint32>, filters: seq<seq<seq<byte>>>,
                      blockOffset: nat, key: seq<byte>)
    requires |result| < TWO_32 && Filters(hash, k, result, offsets, filters) && k <= 30
    requires blockOffset / BASE < |filters|
    ensures var i := blockOffset / BASE;
            var size := Limit(offsets, |result|, i) - offsets[i] - 1;
            FilterMayMatch(hash, Contents(result, offsets), blockOffset, key)
            <==> filters[i] != [] && size > 0 && Resembles(hash, k, filters[i], size, key)
  {
    var i := blockOffset / BASE;
    assert FilterAt(hash, k, result, offsets, filters, i);
    ReaderFindsFilter(hash, result, offsets, blockOffset, key);
    if filters[i] != [] {
      MatchesExactlyWhen(hash, k, filters[i], result[offsets[i]..Limit(offsets, |result|, i)], key);
    }
  }

  /** Behind the last range nothing is denied. */
  lemma BeyondFilters(hash: Hash, result: seq<byte>, offsets: seq<uint32>, blockOffset: nat, key: seq<byte>)
    requires |result| < TWO_32 && blockOffset / BASE >= |offsets|
    ensures FilterMayMatch(hash, Contents(result, offsets), blockOffset, key)
  {
    TrailerFields(result, offsets);
    IndexIsQuotient(blockOffset);
  }

  /** Nothing is denied by a block too short for its trailer, by one whose offsets are said to start behind
      their end, or by a filter that is said to end before it starts. */
  lemma MalformedDeniesNothing(hash: Hash, contents: seq<byte>, blockOffset: nat, key: seq<byte>)
    requires !FilterMayMatch(hash, contents, blockOffset, key)
    ensures |contents| >= 5 && DecodeFixed32(contents[|contents| - 5..]) <= |contents| - 5
    ensures var at := DecodeFixed32(contents[|contents| - 5..]);
            exists i: nat ::
              at + 4 * i + 8 <= |contents| && Fixed32At(contents, at, i) <= Fixed32At(contents, at, i + 1)
  {
    var at := DecodeFixed32(contents[|contents| - 5..]);
    var i := Index(blockOffset, contents[|contents| - 1]);
    assert at + 4 * i + 8 <= |contents| && Fixed32At(contents, at, i) <= Fixed32At(contents, at, i + 1);
  }

  /** A block without filters: where the offsets start, and the base, which is two kilobytes. */
  lemma EmptyFilterBlock()
    ensures Contents([], []) == [0, 0, 0, 0, 11]
  {
    assert EncodeFixed32(0) == [0, 0, 0, 0];
  }

  /** The reader asks the filter of the block. */
  method KeyMayMatchInBlock(hash: Hash, contents: seq<byte>, blockOffset: nat, key: seq<byte>) returns (r: bool)
    ensures r == FilterMayMatch(hash, contents, blockOffset, key)
  {
    var n := |contents|;
    if n < 5 {
      return true;
    }
    var lastWord := DecodeFixed32(contents[n - 5..]);
    if lastWord > n - 5 {
      return true;
    }
    var num := (n - 5 - lastWord) / 4;
    var index := Index(blockOffset, contents[n - 1]);
    if index < num {
      r := AskFilter(hash, contents, lastWord, index, key);
      return;
    }
    return true;
  }

  method AskFilter(hash: Hash, contents: seq<byte>, at: nat, i: nat, key: seq<byte>) returns (r: bool)
    requires at + 4 * i + 8 <= |contents|
    ensures r == MayMatchAt(hash, contents, at, i, key)
  {
    var start := Fixed32At(contents, at, i);
    var limit := Fixed32At(contents, at, i + 1);
    if start <= limit && limit <= at {
      r := KeyMayMatch(hash, key, contents[start..limit]);
    } else {
      r := start != limit;
    }
  }
}
