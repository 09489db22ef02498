/** The two-level iterator (table/two_level_iterator.cc): an index iterator and an iterator on the block
    it points to make a cursor on the concatenation of the blocks, empty blocks included. */
module TwoLevel {
  import opened Wrappers
  import opened Bytewise
  import opened Tables

  /** Every index key is at or after the entries of its block and before those of later blocks. */
  ghost predicate Guides(index: seq<ByteKey>, blocks: seq<seq<Pair>>) {
    && |index| == |blocks| && Increasing(Concat(blocks))
    && (forall b, e :: 0 <= b < |blocks| && e in blocks[b] ==> !Before(index[b], e.key))
    && (forall b, c, e :: 0 <= b < c < |blocks| && e in blocks[c] ==> Before(index[b], e.key))
  }

  lemma IndexAfterBlock(t: Table, run: seq<Pair>, b: nat, j: nat)
    requires IsTable(t, run) && b < |t.blocks| && j < |t.blocks[b]|
    ensures !Before(t.index[b], t.blocks[b][j].key)
  {
    EntryAt(t.blocks, b, j);
    assert CutsAt(run, End(t.blocks, b), t.index[b]);
    NotAfterIndex(run, End(t.blocks, b), t.index[b]);
    BeforeIsTotal(t.index[b], t.blocks[b][j].key);
  }

  lemma IndexBeforeLater(t: Table, run: seq<Pair>, b: nat, c: nat, j: nat)
    requires IsTable(t, run) && b < c < |t.blocks| && j < |t.blocks[c]|
    ensures Before(t.index[b], t.blocks[c][j].key)
  {
    EntryAt(t.blocks, c, j);
    StartsGrow(t.blocks, b + 1, c);
    var cut := End(t.blocks, b);
    assert CutsAt(run, cut, t.index[b]);
    if cut < Start(t.blocks, c) + j {
      BeforeChain(t.index[b], run[cut].key, t.blocks[c][j].key);
    }
  }

  /** The index that a table builder writes does so. */
  lemma TableGuides(t: Table, run: seq<Pair>)
    requires IsTable(t, run)
    ensures Guides(t.index, t.blocks)
  {
    forall b, e | 0 <= b < |t.blocks| && e in t.blocks[b] ensures !Before(t.index[b], e.key) {
      var j :| 0 <= j < |t.blocks[b]| && t.blocks[b][j] == e;
      IndexAfterBlock(t, run, b, j);
    }
    forall b, c, e | 0 <= b < c < |t.blocks| && e in t.blocks[c] ensures Before(t.index[b], e.key) {
      var j :| 0 <= j < |t.blocks[c]| && t.blocks[c][j] == e;
      IndexBeforeLater(t, run, b, c, j);
    }
  }

  class TwoLevelIterator {
    const index: seq<ByteKey>
    const blocks: seq<seq<Pair>>
    var indexPos: nat                // |index| when the index iterator is not valid
    var dataBlock: Option<nat>       // the block the data iterator is for
    var dataPos: nat                 // the length of the block when the data iterator is not valid

    ghost predicate Ok()
      reads this
    {
      && Guides(index, blocks) && indexPos <= |index|
      && (dataBlock.Some? ==> dataBlock.value < |blocks| && dataPos <= |blocks[dataBlock.value]|)
      && (Valid() ==> dataBlock == Some(indexPos))
    }

    constructor (index: seq<ByteKey>, blocks: seq<seq<Pair>>)
      requires Guides(index, blocks)
      ensures Ok() && !Valid() && this.index == index && this.blocks == blocks
    {
      this.index := index;
      this.blocks := blocks;
      indexPos := |index|;
      dataBlock := None;
      dataPos := 0;
    }

    predicate Valid()
      reads this
    {
      dataBlock.Some? && dataBlock.value < |blocks| && dataPos < |blocks[dataBlock.value]|
    }

    /** The position in the concatenation; its length when the iterator is not valid. */
    ghost function Position(): nat
      reads this
    {
      if Valid() then Start(blocks, dataBlock.value) + dataPos else |Concat(blocks)|
    }

    function Entry(): Pair
      requires Valid()
      reads this
    {
      blocks[dataBlock.value][dataPos]
    }

    lemma YieldsEntry()
      requires Ok() && Valid()
      ensures Position() < |Concat(blocks)| && Entry() == Concat(blocks)[Position()]
    {
      EntryAt(blocks, dataBlock.value, dataPos);
    }

    /** The data iterator is for the block the index points to; it is kept if it is for that block already. */
    method InitDataBlock()
      requires indexPos <= |index| == |blocks|
      requires dataBlock.Some? ==> dataBlock.value < |blocks| && dataPos <= |blocks[dataBlock.value]|
      modifies this`dataBlock, this`dataPos
      ensures dataBlock == if indexPos < |index| then Some(indexPos) else None
      ensures dataBlock.Some? ==> dataPos <= |blocks[dataBlock.value]|
    {
      if indexPos == |index| {
        dataBlock := None;
      } else if dataBlock != Some(indexPos) {
        dataBlock := Some(indexPos);
        dataPos := |blocks[indexPos]|;
      }
    }

    /** Where the next entry is, once the current block is exhausted. */
    ghost function AfterBlock(): nat
      requires |index| == |blocks|
      reads this
    {
      if indexPos < |index| then End(blocks, indexPos) else |Concat(blocks)|
    }

    method SkipEmptyDataBlocksForward(ghost p: nat)
      requires Ok() && p == if Valid() then Position() else AfterBlock()
      modifies this
      ensures Ok() && Position() == p && (Valid() <==> p < |Concat(blocks)|)
    {
      while !Valid()
        invariant Ok() && p == if Valid() then Position() else AfterBlock()
        decreases |index| - indexPos, !Valid()
      {
        if indexPos == |index| {
          dataBlock := None;
          return;
        }
        indexPos := indexPos + 1;
        InitDataBlock();
        if dataBlock.Some? {
          dataPos := 0;
        }
        NextBlock(blocks, indexPos);
      }
      YieldsEntry();
    }

    /** Where the previous entry is, once the current block is exhausted; -1 at the front. */
    ghost function BeforeBlock(): int
      requires |index| == |blocks|
      reads this
    {
      if indexPos < |index| then Start(blocks, indexPos) - 1 else -1
    }

    method SkipEmptyDataBlocksBackward(ghost p: int)
      requires Ok() && p == if Valid() then Position() else BeforeBlock()
      modifies this
      ensures Ok() && (if p >= 0 then Valid() && Position() == p else !Valid())
    {
      while !Valid()
        invariant Ok() && p == if Valid() then Position() else BeforeBlock()
        decreases if indexPos < |index| then indexPos + 1 else 0, !Valid()
      {
        if indexPos == |index| {
          dataBlock := None;
          return;
        }
        PreviousBlock(blocks, indexPos);
        indexPos := if indexPos == 0 then |index| else indexPos - 1;
        InitDataBlock();
        if dataBlock.Some? {
          dataPos := if blocks[dataBlock.value] == [] then 0 else |blocks[dataBlock.value]| - 1;
        }
      }
    }

    method Seek(target: ByteKey)
      requires Ok()
      modifies this
      ensures Ok() && IsBound(Concat(blocks), target, Position()) && (Valid() <==> Position() < |Concat(blocks)|)
    {
      indexPos := SeekIndex(index, target);
      InitDataBlock();
      if dataBlock.Some? {
        BlockIncreases(blocks, Concat(blocks), indexPos);
        dataPos := SeekBlock(blocks[indexPos], target);
      }
      ghost var p := SoughtPosition(index, blocks, target, indexPos, dataPos);
      SkipEmptyDataBlocksForward(p);
    }

    method SeekToFirst()
      requires Ok()
      modifies this
      ensures Ok() && Position() == 0 && (Valid() <==> Concat(blocks) != [])
    {
      indexPos := 0;
      InitDataBlock();
      if dataBlock.Some? {
        dataPos := 0;
        NextBlock(blocks, 1);
      }
      StartOfAll(blocks);
      SkipEmptyDataBlocksForward(0);
    }

    method SeekToLast()
      requires Ok()
      modifies this
      ensures Ok() && (Valid() <==> Concat(blocks) != []) && (Valid() ==> Position() == |Concat(blocks)| - 1)
    {
      indexPos := if index == [] then 0 else |index| - 1;
      InitDataBlock();
      StartOfAll(blocks);
      if dataBlock.Some? {
        NextBlock(blocks, |blocks|);
        BlockAt(blocks, |blocks| - 1);
        dataPos := if blocks[indexPos] == [] then 0 else |blocks[indexPos]| - 1;
      }
      SkipEmptyDataBlocksBackward(|Concat(blocks)| - 1);
    }

    method Next()
      requires Ok() && Valid()
      modifies this
      ensures Ok() && Position() == old(Position()) + 1 && (Valid() <==> Position() < |Concat(blocks)|)
    {
      ghost var p := Position() + 1;
      NextBlock(blocks, indexPos + 1);
      BlockAt(blocks, indexPos);
      dataPos := dataPos + 1;
      SkipEmptyDataBlocksForward(p);
    }

    method Prev()
      requires Ok() && Valid()
      modifies this
      ensures Ok() && (Valid() <==> old(Position()) > 0) && (Valid() ==> Position() == old(Position()) - 1)
    {
      ghost var p := Position() - 1;
      dataPos := if dataPos == 0 then |blocks[dataBlock.value]| else dataPos - 1;
      SkipEmptyDataBlocksBackward(p);
    }
  }

  lemma PreviousBlock(blocks: seq<seq<Pair>>, b: nat)
    requires b < |blocks|
    ensures b == 0 ==> Start(blocks, b) == 0
    ensures b > 0 ==> Start(blocks, b) == Start(blocks, b - 1) + |blocks[b - 1]|
  {
    StartOfAll(blocks);
    if b > 0 { BlockAt(blocks, b - 1); }
  }

  /** Where the sought key belongs in the concatenation. */
  lemma SoughtPosition(index: seq<ByteKey>, blocks: seq<seq<Pair>>, target: ByteKey, b: nat, j: nat) returns (p: nat)
    requires Guides(index, blocks) && b <= |index| && forall c :: 0 <= c < b ==> Before(index[c], target)
    requires b < |index| ==> !Before(index[b], target) && IsBound(blocks[b], target, j)
    ensures IsBound(Concat(blocks), target, p)
    ensures p == if b == |index| then |Concat(blocks)|
                 else if j < |blocks[b]| then Start(blocks, b) + j else End(blocks, b)
  {
    StartOfAll(blocks);
    p := if b == |index| then |Concat(blocks)| else Start(blocks, b) + j;
    if b < |index| { BlockAt(blocks, b); }
    forall c, i | 0 <= c < |blocks| && 0 <= i < |blocks[c]|
      ensures Before(blocks[c][i].key, target) <==> Start(blocks, c) + i < p
    {
      EntrySide(index, blocks, target, b, j, c, i);
    }
    forall m | 0 <= m < |Concat(blocks)| ensures Before(Concat(blocks)[m].key, target) <==> m < p {
      var c, i := BlockOf(blocks, m);
    }
  }

  lemma EntrySide(index: seq<ByteKey>, blocks: seq<seq<Pair>>, target: ByteKey, b: nat, j: nat, c: nat, i: nat)
    requires Guides(index, blocks) && b <= |index| && forall c :: 0 <= c < b ==> Before(index[c], target)
    requires b < |index| ==> !Before(index[b], target) && IsBound(blocks[b], target, j)
    requires c < |blocks| && i < |blocks[c]|
    ensures Before(blocks[c][i].key, target) <==> c < b || (c == b && i < j)
    ensures Start(blocks, c) + i < (if b == |index| then |Concat(blocks)| else Start(blocks, b) + j)
       <==> c < b || (c == b && i < j)
  {
    var e := blocks[c][i];
    EntryAt(blocks, c, i);
    if c < b {
      BeforeIsTotal(index[c], e.key);
      BeforeChain(e.key, index[c], target);
      StartsGrow(blocks, c + 1, b);
      StartOfAll(blocks);
    } else if c > b {
      if Before(e.key, target) { BeforeIsTransitive(index[b], e.key, target); }
      StartsGrow(blocks, b + 1, c);
      BlockAt(blocks, b);
    }
  }

  /** Every position lies in a block. */
  lemma {:induction false} BlockOf(blocks: seq<seq<Pair>>, m: nat) returns (c: nat, i: nat)
    requires m < |Concat(blocks)|
    ensures c < |blocks| && i < |blocks[c]| && m == Start(blocks, c) + i && Concat(blocks)[m] == blocks[c][i]
  {
    var init, last := blocks[..|blocks| - 1], blocks[|blocks| - 1];
    if m < |Concat(init)| {
      c, i := BlockOf(init, m);
      assert init[..c] == blocks[..c];
    } else {
      c, i := |init|, m - |Concat(init)|;
    }
  }

  lemma NextBlock(blocks: seq<seq<Pair>>, b: nat)
    requires 0 < b <= |blocks|
    ensures End(blocks, b - 1) == Start(blocks, b)
    ensures b < |blocks| ==> End(blocks, b) == Start(blocks, b) + |blocks[b]|
    ensures b == |blocks| ==> Start(blocks, b) == |Concat(blocks)|
  {
    StartOfAll(blocks);
    if b < |blocks| { BlockAt(blocks, b); }
  }
}
