/** Tables with filters (table/table_builder.cc and table/table.cc with a filter policy): the builder feeds
    the filter block the user keys of every data block, and a lookup asks it by the offset of the block. */
module TableFilters {
  import opened Wrappers
  import opened Bytes
  import opened Bytewise
  import opened Bloom
  import opened FilterBlocks
  import opened Tables

  /** The filter block has been given every key of every block under the offset of the block. */
  ghost predicate Given(blocks: seq<seq<Pair>>, offsets: seq<nat>, added: seq<(nat, seq<byte>)>) {
    && |offsets| == |blocks|
    && forall b, j :: 0 <= b < |blocks| && 0 <= j < |blocks[b]| ==> (offsets[b], blocks[b][j].key.user) in added
  }

  /** And the keys of the block being filled. */
  ghost predicate GivenTo(data: seq<Pair>, offset: nat, added: seq<(nat, seq<byte>)>) {
    forall j :: 0 <= j < |data| ==> (offset, data[j].key.user) in added
  }

  /** What a reader learns from the filter block about the block at `b`. */
  ghost function Matches(hash: Hash, contents: seq<byte>, offsets: seq<nat>): (nat, seq<byte>) -> bool {
    (b: nat, user: seq<byte>) => b < |offsets| && FilterMayMatch(hash, contents, offsets[b], user)
  }

  /** A filter block that denies none of its keys has no false negatives for the table. */
  lemma FiltersServeTable(t: Table, offsets: seq<nat>, hash: Hash, contents: seq<byte>, added: seq<(nat, seq<byte>)>)
    requires Given(t.blocks, offsets, added) && NoneDenied(hash, contents, added)
    ensures Tables.NoFalseNegatives(t, Matches(hash, contents, offsets))
  {
    forall b, j | 0 <= b < |t.blocks| && 0 <= j < |t.blocks[b]|
      ensures Matches(hash, contents, offsets)(b, t.blocks[b][j].key.user)
    {
      var a := (offsets[b], t.blocks[b][j].key.user);
      assert a in added;
    }
  }

  /** One more key for the block being filled. */
  lemma GivenOneMore(blocks: seq<seq<Pair>>, offsets: seq<nat>, data: seq<Pair>, offset: nat,
                     added: seq<(nat, seq<byte>)>, e: Pair)
    requires Given(blocks, offsets, added) && GivenTo(data, offset, added)
    ensures var added', data' := added + [(offset, e.key.user)], data + [e];
            && Given(blocks, offsets, added') && GivenTo(data', offset, added')
            && Given(blocks + [data'], offsets + [offset], added')
  {
    var added' := added + [(offset, e.key.user)];
    assert forall a :: a in added ==> a in added';
    assert added'[|added|] == (offset, e.key.user);
  }

  class FilteredTableBuilder {
    const table: TableBuilder
    const filter: FilterBlockBuilder
    var offset: nat                 // where the block being filled will start
    var offsets: seq<nat>           // where the blocks written start

    ghost predicate Valid()
      reads this, table, filter
    {
      && table.Valid() && filter.Valid() && filter.block == offset
      && Given(table.blocks, offsets, filter.added) && GivenTo(table.data, offset, filter.added)
    }

    constructor (hash: Hash, bitsPerKey: nat, k: nat)
      requires 1 <= k <= 30
      ensures Valid() && table.added == [] && !table.closed && fresh(table) && fresh(filter) && filter.hash == hash
    {
      table := new TableBuilder();
      filter := new FilterBlockBuilder(hash, bitsPerKey, k);
      offset, offsets := 0, [];
      new;
      assert table.blocks == [] && table.data == [];
    }

    /** Adds an entry; a block that is full is written, `size` bytes with its trailer. */
    method Add(key: ByteKey, value: string, full: bool, size: nat)
      requires Valid() && !table.closed && (table.numEntries > 0 ==> Before(table.lastKey, key))
      modifies this, table, filter
      ensures Valid() && !table.closed && table.added == old(table.added) + [Pair(key, value)]
    {
      ghost var blocks0, data0, added0 := table.blocks, table.data, filter.added;
      filter.AddKey(key.user);
      GivenOneMore(blocks0, offsets, data0, offset, added0, Pair(key, value));
      table.Add(key, value, full);
      if full {
        offsets, offset := offsets + [offset], offset + size;
        filter.StartBlock(offset);
      }
    }

    /** The finished table and its filter block: as long as the filters stay below four gigabytes, a
        lookup that trusts them misses nothing. */
    method Finish(size: nat) returns (t: Table, contents: seq<byte>)
      requires Valid() && !table.closed
      modifies this, table, filter
      ensures IsTable(t, old(table.added)) && |offsets| == |t.blocks|
      ensures |filter.result| < TWO_32 ==> Tables.NoFalseNegatives(t, Matches(filter.hash, contents, offsets))
    {
      if table.data != [] {
        offsets, offset := offsets + [offset], offset + size;
        filter.StartBlock(offset);
      }
      t := table.Finish();
      contents := filter.Finish();
      if |filter.result| < TWO_32 {
        FiltersServeTable(t, offsets, filter.hash, contents, filter.added);
      }
    }
  }

  /** A lookup that asks the filter block before it reads the data block. */
  method InternalGet(t: Table, ghost run: seq<Pair>, offsets: seq<nat>, hash: Hash, contents: seq<byte>, k: ByteKey)
    returns (r: Option<Pair>)
    requires IsTable(t, run) && |offsets| == |t.blocks|
    requires Tables.NoFalseNegatives(t, Matches(hash, contents, offsets))
    ensures IsLookup(run, k, r)
  {
    var b := SeekIndex(t.index, k);
    var mayMatch := false;
    if b < |t.index| {
      mayMatch := KeyMayMatchInBlock(hash, contents, offsets[b], k.user);
    }
    r := SearchBlock(t, run, k, b, mayMatch, Matches(hash, contents, offsets));
  }
}
