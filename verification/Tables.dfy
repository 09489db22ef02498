/** Sorted tables: entries cut into blocks, an index of separators, and the lookup that searches one
    block only (table/table_builder.cc, table/table.cc). */
module Tables {
  import opened Wrappers
  import opened Bytes
  import opened Bytewise
  import opened InternalKeys

  datatype Pair = Pair(key: ByteKey, value: string)

  ghost predicate Increasing(run: seq<Pair>) {
    forall i, j :: 0 <= i < j < |run| ==> Before(run[i].key, run[j].key)
  }

  /** The entries before `i` are those whose keys come before `target`. */
  ghost predicate IsBound(run: seq<Pair>, target: ByteKey, i: nat) {
    && i <= |run|
    && (forall j :: 0 <= j < i ==> Before(run[j].key, target))
    && (forall j :: i <= j < |run| ==> !Before(run[j].key, target))
  }

  // ------------------------------------------------------------------- blocks

  function Concat(blocks: seq<seq<Pair>>): seq<Pair> {
    if blocks == [] then [] else Concat(blocks[..|blocks| - 1]) + blocks[|blocks| - 1]
  }

  /** Where block `b` starts in the whole. */
  function Start(blocks: seq<seq<Pair>>, b: nat): nat
    requires b <= |blocks|
  {
    |Concat(blocks[..b])|
  }

  function End(blocks: seq<seq<Pair>>, b: nat): nat
    requires b < |blocks|
  {
    Start(blocks, b + 1)
  }

  lemma {:induction false} BlockAt(blocks: seq<seq<Pair>>, b: nat)
    requires b < |blocks|
    ensures End(blocks, b) == Start(blocks, b) + |blocks[b]| <= |Concat(blocks)|
    ensures Concat(blocks)[Start(blocks, b)..End(blocks, b)] == blocks[b]
    decreases |blocks|
  {
    var init := blocks[..|blocks| - 1];
    if b == |blocks| - 1 {
      assert blocks[..b + 1] == blocks && blocks[..b] == init;
    } else {
      BlockAt(init, b);
      assert init[..b] == blocks[..b] && init[..b + 1] == blocks[..b + 1];
      assert Concat(blocks)[..|Concat(init)|] == Concat(init);
      assert Concat(blocks)[Start(blocks, b)..End(blocks, b)]
          == Concat(init)[Start(blocks, b)..End(blocks, b)];
    }
  }

  lemma EntryAt(blocks: seq<seq<Pair>>, b: nat, j: nat)
    requires b < |blocks| && j < |blocks[b]|
    ensures Start(blocks, b) + j < End(blocks, b) <= |Concat(blocks)|
    ensures Concat(blocks)[Start(blocks, b) + j] == blocks[b][j]
  {
    BlockAt(blocks, b);
    SliceAt(Concat(blocks), Start(blocks, b), End(blocks, b), j);
  }

  lemma SliceAt(run: seq<Pair>, lo: nat, hi: nat, j: nat)
    requires lo + j < hi <= |run|
    ensures run[lo..hi][j] == run[lo + j]
  {
  }

  lemma StartOfAll(blocks: seq<seq<Pair>>)
    ensures Start(blocks, 0) == 0 && Start(blocks, |blocks|) == |Concat(blocks)|
  {
    assert blocks[..|blocks|] == blocks && blocks[..0] == [];
  }

  // -------------------------------------------------------------------- index

  /** `k` stands between the entries before position `cut` and those from it on: it is the last key
      before, or its user key lies strictly between. */
  ghost predicate CutsAt(run: seq<Pair>, cut: nat, k: ByteKey) {
    && 0 < cut <= |run|
    && if cut < |run| then Separates(k, run[cut - 1].key, run[cut].key)
       else k == run[cut - 1].key || Less(run[cut - 1].key.user, k.user)
  }

  datatype Table = Table(index: seq<ByteKey>, blocks: seq<seq<Pair>>)

  ghost predicate NonEmptyBlocks(blocks: seq<seq<Pair>>) {
    forall b :: 0 <= b < |blocks| ==> blocks[b] != []
  }

  ghost predicate IsTable(t: Table, run: seq<Pair>) {
    && |t.index| == |t.blocks| && NonEmptyBlocks(t.blocks)
    && Concat(t.blocks) == run && Increasing(run)
    && Cuts(t.blocks, t.index, run)
  }

  /** Every index key stands where its block ends. */
  ghost predicate Cuts(blocks: seq<seq<Pair>>, index: seq<ByteKey>, run: seq<Pair>) {
    |index| <= |blocks| && forall b :: 0 <= b < |index| ==> CutsAt(run, End(blocks, b), index[b])
  }

  /** Every block with an index key ends before the entries do. */
  ghost predicate CutsInside(blocks: seq<seq<Pair>>, index: seq<ByteKey>, run: seq<Pair>) {
    |index| <= |blocks| && forall b :: 0 <= b < |index| ==> End(blocks, b) < |run|
  }

  // ------------------------------------------------------------------ builder

  class TableBuilder {
    var blocks: seq<seq<Pair>>     // the blocks written
    var index: seq<ByteKey>        // the index entries written
    var data: seq<Pair>            // the block being filled
    var lastKey: ByteKey
    var numEntries: nat
    var pendingIndexEntry: bool
    var closed: bool
    ghost var added: seq<Pair>

    ghost predicate Valid()
      reads this
    {
      && Concat(blocks) + data == added && Increasing(added) && numEntries == |added|
      && NonEmptyBlocks(blocks)
      && (numEntries > 0 ==> lastKey == added[|added| - 1].key)
      && (pendingIndexEntry ==> data == [] && blocks != [] && !closed)
      && (closed ==> data == [])
      && (!closed && !pendingIndexEntry && data == [] ==> blocks == [])
      && |index| == |blocks| - (if pendingIndexEntry then 1 else 0)
      && Cuts(blocks, index, added) && (!closed ==> CutsInside(blocks, index, added))
    }

    constructor ()
      ensures Valid() && added == [] && !closed
    {
      blocks, index, data, added := [], [], [], [];
      lastKey := ByteKey([], 0, Deletion);
      numEntries := 0;
      pendingIndexEntry, closed := false, false;
    }

    /** Adds an entry; `full` says whether the block has reached its size. */
    method Add(key: ByteKey, value: string, full: bool)
      requires Valid() && !closed && (numEntries > 0 ==> Before(lastKey, key))
      modifies this
      ensures Valid() && !closed && added == old(added) + [Pair(key, value)]
      ensures if full then blocks == old(blocks) + [old(data) + [Pair(key, value)]] && data == []
              else blocks == old(blocks) && data == old(data) + [Pair(key, value)]
    {
      IndexLastBlock(key, Pair(key, value));
      Append(key, value);
      if full {
        Flush();
      }
    }

    /** Once the next key is known, the index entry of the block before it is written. */
    method IndexLastBlock(key: ByteKey, ghost e: Pair)
      requires Valid() && !closed && (numEntries > 0 ==> Before(lastKey, key)) && e.key == key
      modifies this`index, this`pendingIndexEntry
      ensures !pendingIndexEntry && |index| == |blocks|
      ensures Cuts(blocks, index, added + [e]) && CutsInside(blocks, index, added + [e])
    {
      CutsStay(blocks, index, added, e);
      if pendingIndexEntry {
        var separator := FindInternalSeparator(lastKey, key);
        OneMoreCut(blocks, index, added + [e], separator);
        OneMoreInside(blocks, index, added + [e], separator);
        index := index + [separator];
        pendingIndexEntry := false;
      }
    }

    method Append(key: ByteKey, value: string)
      requires Concat(blocks) + data == added && Increasing(added) && numEntries == |added| && NonEmptyBlocks(blocks)
      requires !closed && !pendingIndexEntry && |index| == |blocks|
      requires added != [] ==> Before(added[|added| - 1].key, key)
      requires Cuts(blocks, index, added + [Pair(key, value)]) && CutsInside(blocks, index, added + [Pair(key, value)])
      modifies this`lastKey, this`numEntries, this`data, this`added
      ensures Valid() && added == old(added) + [Pair(key, value)] && data == old(data) + [Pair(key, value)]
    {
      AddedIncreases(added, Pair(key, value));
      lastKey := key;
      numEntries := numEntries + 1;
      data := data + [Pair(key, value)];
      added := added + [Pair(key, value)];
    }

    /** Writes the block being filled, if there is one. */
    method Flush()
      requires Valid() && !closed
      modifies this`blocks, this`data, this`pendingIndexEntry
      ensures Valid()
      ensures if old(data) == [] then blocks == old(blocks) && pendingIndexEntry == old(pendingIndexEntry)
              else blocks == old(blocks) + [old(data)] && pendingIndexEntry
      ensures data == []
    {
      if data == [] {
        return;
      }
      BlocksStay(blocks, index, added, data);
      blocks := blocks + [data];
      assert blocks[..|blocks| - 1] == old(blocks);
      data := [];
      pendingIndexEntry := true;
    }

    /** Writes the last block and its index entry. */
    method Finish() returns (t: Table)
      requires Valid() && !closed
      modifies this
      ensures Valid() && closed && added == old(added)
      ensures IsTable(t, added)
      ensures t.blocks == if old(data) == [] then old(blocks) else old(blocks) + [old(data)]
    {
      Flush();
      closed := true;
      if pendingIndexEntry {
        var successor := FindInternalSuccessor(lastKey);
        OneMoreCut(blocks, index, added, successor);
        index := index + [successor];
        pendingIndexEntry := false;
      }
      t := Table(index, blocks);
    }
  }

  lemma AddedIncreases(added: seq<Pair>, e: Pair)
    requires Increasing(added) && (added != [] ==> Before(added[|added| - 1].key, e.key))
    ensures Increasing(added + [e])
  {
    forall i | 0 <= i < |added| ensures Before(added[i].key, e.key) {
      if i < |added| - 1 {
        BeforeIsTransitive(added[i].key, added[|added| - 1].key, e.key);
      }
    }
  }

  /** More entries do not touch the cuts that lie before them. */
  lemma CutsStay(blocks: seq<seq<Pair>>, index: seq<ByteKey>, added: seq<Pair>, e: Pair)
    requires Cuts(blocks, index, added) && CutsInside(blocks, index, added)
    ensures Cuts(blocks, index, added + [e]) && CutsInside(blocks, index, added + [e])
  {
    forall b | 0 <= b < |index| ensures CutsAt(added + [e], End(blocks, b), index[b]) {
      assert CutsAt(added, End(blocks, b), index[b]);
    }
  }

  /** The block written last gets its index key. */
  lemma OneMoreCut(blocks: seq<seq<Pair>>, index: seq<ByteKey>, run: seq<Pair>, k: ByteKey)
    requires Cuts(blocks, index, run) && |index| + 1 == |blocks| && CutsAt(run, |Concat(blocks)|, k)
    ensures Cuts(blocks, index + [k], run)
  {
    StartOfAll(blocks);
    var index' := index + [k];
    forall b | 0 <= b < |index'| ensures CutsAt(run, End(blocks, b), index'[b]) {
      if b < |index| {
        assert index'[b] == index[b] && CutsAt(run, End(blocks, b), index[b]);
      } else {
        assert index'[b] == k && End(blocks, b) == |Concat(blocks)|;
      }
    }
  }

  lemma OneMoreInside(blocks: seq<seq<Pair>>, index: seq<ByteKey>, run: seq<Pair>, k: ByteKey)
    requires CutsInside(blocks, index, run) && |index| + 1 == |blocks| && |Concat(blocks)| < |run|
    ensures CutsInside(blocks, index + [k], run)
  {
    StartOfAll(blocks);
  }

  /** One more block does not move the earlier ones. */
  lemma BlocksStay(blocks: seq<seq<Pair>>, index: seq<ByteKey>, run: seq<Pair>, block: seq<Pair>)
    requires Cuts(blocks, index, run)
    ensures Cuts(blocks + [block], index, run)
    ensures CutsInside(blocks, index, run) ==> CutsInside(blocks + [block], index, run)
    ensures Concat(blocks + [block]) == Concat(blocks) + block
  {
    forall b | 0 <= b <= |blocks| ensures Start(blocks + [block], b) == Start(blocks, b) {
      assert (blocks + [block])[..b] == blocks[..b];
    }
    assert (blocks + [block])[..|blocks|] == blocks;
  }

  // ------------------------------------------------------------------- lookup

  lemma StartsGrow(blocks: seq<seq<Pair>>, b: nat, c: nat)
    requires b <= c <= |blocks|
    ensures Start(blocks, b) <= Start(blocks, c)
    decreases c - b
  {
    if b < c {
      BlockAt(blocks, b);
      StartsGrow(blocks, b + 1, c);
    }
  }

  /** The entries of the blocks before the one a lookup searches come before the key. */
  lemma EarlierBlocks(t: Table, run: seq<Pair>, k: ByteKey, b: nat)
    requires IsTable(t, run) && b <= |t.blocks| && forall c :: 0 <= c < b ==> Before(t.index[c], k)
    ensures Start(t.blocks, b) <= |run|
    ensures forall j :: 0 <= j < Start(t.blocks, b) ==> Before(run[j].key, k)
  {
    StartOfAll(t.blocks);
    StartsGrow(t.blocks, b, |t.blocks|);
    if b > 0 {
      var cut := End(t.blocks, b - 1);
      assert CutsAt(run, cut, t.index[b - 1]);
      NotAfterIndex(run, cut, t.index[b - 1]);
      forall j | 0 <= j < cut ensures Before(run[j].key, k) {
        BeforeChain(run[j].key, t.index[b - 1], k);
      }
    }
  }

  /** No entry before a cut comes after the index key there. */
  lemma NotAfterIndex(run: seq<Pair>, cut: nat, k: ByteKey)
    requires Increasing(run) && CutsAt(run, cut, k)
    ensures forall j :: 0 <= j < cut ==> run[j].key == k || Before(run[j].key, k)
  {
    forall j | 0 <= j < cut ensures run[j].key == k || Before(run[j].key, k) {
      if j < cut - 1 {
        BeforeChain(run[j].key, run[cut - 1].key, k);
      }
    }
  }

  lemma BeforeChain(a: ByteKey, b: ByteKey, c: ByteKey)
    requires (a == b || Before(a, b)) && (b == c || Before(b, c)) && (Before(a, b) || Before(b, c))
    ensures Before(a, c)
  {
    if Before(a, b) && Before(b, c) {
      BeforeIsTransitive(a, b, c);
    }
  }

  lemma BoundInRun(t: Table, run: seq<Pair>, k: ByteKey, b: nat, j: nat)
    requires IsTable(t, run) && b < |t.blocks| && forall c :: 0 <= c < b ==> Before(t.index[c], k)
    requires IsBound(t.blocks[b], k, j) && j < |t.blocks[b]|
    ensures Start(t.blocks, b) + j < |run| && run[Start(t.blocks, b) + j] == t.blocks[b][j]
    ensures IsBound(run, k, Start(t.blocks, b) + j)
  {
    EarlierBlocks(t, run, k, b);
    EntryAt(t.blocks, b, j);
    var i := Start(t.blocks, b) + j;
    forall m | 0 <= m < i ensures Before(run[m].key, k) {
      if m >= Start(t.blocks, b) {
        EntryAt(t.blocks, b, m - Start(t.blocks, b));
      }
    }
    RestFollows(run, k, i);
  }

  /** When the block searched holds no entry at or after the key, the next entry of the table has a
      greater user key. */
  lemma BeyondBlock(t: Table, run: seq<Pair>, k: ByteKey, b: nat, i: nat)
    requires IsTable(t, run) && b < |t.blocks| && forall c :: 0 <= c < b ==> Before(t.index[c], k)
    requires !Before(t.index[b], k) && IsBound(t.blocks[b], k, |t.blocks[b]|)
    requires IsBound(run, k, i) && i < |run|
    ensures Less(k.user, run[i].key.user)
  {
    var cut := End(t.blocks, b);
    BlockAt(t.blocks, b);
    EarlierBlocks(t, run, k, b);
    forall m | 0 <= m < cut ensures Before(run[m].key, k) {
      if m >= Start(t.blocks, b) {
        EntryAt(t.blocks, b, m - Start(t.blocks, b));
      }
    }
    assert cut <= i;
    assert CutsAt(run, cut, t.index[b]);
    BeforeIsTotal(t.index[b], k);
    assert t.index[b] != run[cut - 1].key;
    assert Less(t.index[b].user, run[cut].key.user);
    UserChain(k, t.index[b], run[cut].key, run[i].key, cut == i);
  }

  lemma UserChain(k: ByteKey, index: ByteKey, next: ByteKey, found: ByteKey, same: bool)
    requires (k == index || Before(k, index)) && Less(index.user, next.user)
    requires if same then next == found else Before(next, found)
    ensures Less(k.user, found.user)
  {
    if k.user != index.user { LessIsTransitive(k.user, index.user, next.user); }
    if next.user != found.user { LessIsTransitive(k.user, next.user, found.user); }
  }

  /** No table filter denies a key that a block holds. */
  ghost predicate NoFalseNegatives(t: Table, keyMayMatch: (nat, seq<byte>) -> bool) {
    forall b, j :: 0 <= b < |t.blocks| && 0 <= j < |t.blocks[b]| ==> keyMayMatch(b, t.blocks[b][j].key.user)
  }

  /** What a lookup may report: nothing but the first entry at or after the key, and that one whenever
      it has the key's user key. */
  ghost predicate IsLookup(run: seq<Pair>, k: ByteKey, r: Option<Pair>) {
    forall i: nat :: IsBound(run, k, i) ==>
      && (r.Some? ==> i < |run| && r.value == run[i])
      && (i < |run| && run[i].key.user == k.user ==> r == Some(run[i]))
  }

  method InternalGet(t: Table, ghost run: seq<Pair>, k: ByteKey, keyMayMatch: (nat, seq<byte>) -> bool)
    returns (r: Option<Pair>)
    requires IsTable(t, run) && NoFalseNegatives(t, keyMayMatch)
    ensures IsLookup(run, k, r)
  {
    var b := SeekIndex(t.index, k);
    var mayMatch := b < |t.index| && keyMayMatch(b, k.user);
    r := SearchBlock(t, run, k, b, mayMatch, keyMayMatch);
  }

  /** The search of the block chosen, if its filter lets it happen. */
  method SearchBlock(t: Table, ghost run: seq<Pair>, k: ByteKey, b: nat, mayMatch: bool,
                     ghost keyMayMatch: (nat, seq<byte>) -> bool)
    returns (r: Option<Pair>)
    requires IsTable(t, run) && NoFalseNegatives(t, keyMayMatch) && b <= |t.index|
    requires (forall c :: 0 <= c < b ==> Before(t.index[c], k)) && (b < |t.index| ==> !Before(t.index[b], k))
    requires mayMatch <==> b < |t.index| && keyMayMatch(b, k.user)
    ensures IsLookup(run, k, r)
  {
    r := None;
    if b < |t.index| {
      if mayMatch {
        BlockIncreases(t.blocks, run, b);
        var j := SeekBlock(t.blocks[b], k);
        if j < |t.blocks[b]| {
          r := Some(t.blocks[b][j]);
        }
      }
      LookupInBlock(t, run, k, keyMayMatch, b, r);
    } else {
      EarlierBlocks(t, run, k, b);
      StartOfAll(t.blocks);
    }
  }

  /** The search of one block decides the lookup, whether the filter lets it happen or not. */
  lemma LookupInBlock(t: Table, run: seq<Pair>, k: ByteKey, keyMayMatch: (nat, seq<byte>) -> bool, b: nat,
                      r: Option<Pair>)
    requires IsTable(t, run) && NoFalseNegatives(t, keyMayMatch) && b < |t.blocks|
    requires !Before(t.index[b], k) && forall c :: 0 <= c < b ==> Before(t.index[c], k)
    requires r.Some? ==> exists j :: 0 <= j < |t.blocks[b]| && IsBound(t.blocks[b], k, j) && r == Some(t.blocks[b][j])
    requires r == None && keyMayMatch(b, k.user) ==> IsBound(t.blocks[b], k, |t.blocks[b]|)
    ensures IsLookup(run, k, r)
  {
    forall i: nat | IsBound(run, k, i)
      ensures r.Some? ==> i < |run| && r.value == run[i]
      ensures i < |run| && run[i].key.user == k.user ==> r == Some(run[i])
    {
      BlockIncreases(t.blocks, run, b);
      var j := BoundExists(t.blocks[b], k);
      if j < |t.blocks[b]| {
        BoundInRun(t, run, k, b, j);
        OneBound(run, k, i, Start(t.blocks, b) + j);
      } else if i < |run| {
        BeyondBlock(t, run, k, b, i);
        LessIsTotal(k.user, run[i].key.user);
      }
    }
  }

  lemma BlockIncreases(blocks: seq<seq<Pair>>, run: seq<Pair>, b: nat)
    requires Concat(blocks) == run && Increasing(run) && b < |blocks|
    ensures Increasing(blocks[b])
  {
    forall i, j | 0 <= i < j < |blocks[b]| ensures Before(blocks[b][i].key, blocks[b][j].key) {
      EntryAt(blocks, b, i);
      EntryAt(blocks, b, j);
    }
  }

  lemma BoundExists(run: seq<Pair>, k: ByteKey) returns (i: nat)
    requires Increasing(run)
    ensures IsBound(run, k, i)
  {
    i := 0;
    while i < |run| && Before(run[i].key, k)
      invariant i <= |run| && forall j :: 0 <= j < i ==> Before(run[j].key, k)
    {
      i := i + 1;
    }
    RestFollows(run, k, i);
  }

  lemma RestFollows(run: seq<Pair>, k: ByteKey, i: nat)
    requires Increasing(run) && i <= |run| && (i < |run| ==> !Before(run[i].key, k))
    ensures forall j :: i <= j < |run| ==> !Before(run[j].key, k)
  {
    forall j | i <= j < |run| ensures !Before(run[j].key, k) {
      if j > i && Before(run[j].key, k) {
        BeforeIsTransitive(run[i].key, run[j].key, k);
      }
    }
  }

  method SeekBlock(block: seq<Pair>, k: ByteKey) returns (j: nat)
    requires Increasing(block)
    ensures IsBound(block, k, j)
  {
    j := 0;
    while j < |block| && Before(block[j].key, k)
      invariant j <= |block| && forall i :: 0 <= i < j ==> Before(block[i].key, k)
    {
      j := j + 1;
    }
    RestFollows(block, k, j);
  }

  lemma OneBound(run: seq<Pair>, k: ByteKey, i: nat, j: nat)
    requires IsBound(run, k, i) && IsBound(run, k, j)
    ensures i == j
  {
    if i < |run| { var e := run[i]; }
    if j < |run| { var e := run[j]; }
  }

  method SeekIndex(index: seq<ByteKey>, k: ByteKey) returns (b: nat)
    ensures b <= |index| && (forall c :: 0 <= c < b ==> Before(index[c], k)) && (b < |index| ==> !Before(index[b], k))
  {
    b := 0;
    while b < |index| && Before(index[b], k)
      invariant b <= |index| && forall c :: 0 <= c < b ==> Before(index[c], k)
    {
      b := b + 1;
    }
  }
}
