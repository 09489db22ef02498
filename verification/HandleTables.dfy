/** The hash table of a cache (util/cache.cc, HandleTable): buckets of chained entries that grow with the
    number of entries. */
module HandleTables {
  import opened Wrappers
  import opened Bytes

  type Key = (seq<byte>, uint32)      // a key and its hash

  datatype Slot = Slot(key: Key, id: nat)

  predicate IsPowerOfTwo(n: nat) {
    n == 1 || (n > 1 && n % 2 == 0 && IsPowerOfTwo(n / 2))
  }

  /** The chain holds these bindings of keys in bucket `b`, each once. */
  ghost predicate ChainHolds(chain: seq<Slot>, contents: map<Key, nat>, length: nat, b: nat)
    requires length > 0
  {
    && (forall i, j :: 0 <= i < j < |chain| ==> chain[i].key != chain[j].key)
    && (forall s :: s in chain ==> s.key.1 % length == b && s.key in contents && contents[s.key] == s.id)
    && (forall k :: k in contents && k.1 % length == b ==> Slot(k, contents[k]) in chain)
  }

  ghost predicate TableHolds(list: seq<seq<Slot>>, contents: map<Key, nat>) {
    && |list| > 0
    && forall b :: 0 <= b < |list| ==> ChainHolds(list[b], contents, |list|, b)
  }

  class HandleTable {
    var length: nat
    var elems: nat
    var list: seq<seq<Slot>>
    ghost var contents: map<Key, nat>

    ghost predicate Valid()
      reads this
    {
      && |list| == length && length >= 4 && IsPowerOfTwo(length)
      && TableHolds(list, contents) && elems == |contents| <= length
    }

    constructor ()
      ensures Valid() && contents == map[]
    {
      length, elems := 4, 0;
      list := [[], [], [], []];
      contents := map[];
    }

    /** The place of a key in its chain; the end of the chain if it is not there. */
    method FindPointer(key: Key) returns (b: nat, i: nat)
      requires Valid()
      ensures b == key.1 % length && i <= |list[b]|
      ensures i < |list[b]| ==> list[b][i].key == key && key in contents && contents[key] == list[b][i].id
      ensures i == |list[b]| <==> key !in contents
    {
      b := key.1 % length;
      i := 0;
      while i < |list[b]| && list[b][i].key != key
        invariant i <= |list[b]| && forall j :: 0 <= j < i ==> list[b][j].key != key
      {
        i := i + 1;
      }
      assert ChainHolds(list[b], contents, length, b);
      assert i < |list[b]| ==> list[b][i] in list[b];
    }

    method Lookup(key: Key) returns (r: Option<nat>)
      requires Valid()
      ensures r == if key in contents then Some(contents[key]) else None
    {
      var b, i := FindPointer(key);
      r := if i < |list[b]| then Some(list[b][i].id) else None;
    }

    /** Binds a key; what it was bound to before is returned. */
    method Insert(key: Key, id: nat) returns (previous: Option<nat>)
      requires Valid()
      modifies this
      ensures Valid() && contents == old(contents)[key := id]
      ensures previous == if key in old(contents) then Some(old(contents)[key]) else None
    {
      var b, i := FindPointer(key);
      if i < |list[b]| {
        previous := Some(list[b][i].id);
        ReplaceInChain(list, contents, b, i, id);
        list := list[b := list[b][i := Slot(key, id)]];
        contents := contents[key := id];
      } else {
        previous := None;
        AddToChain(list, contents, b, key, id);
        list := list[b := list[b] + [Slot(key, id)]];
        contents := contents[key := id];
        elems := elems + 1;
        if elems > length {
          Resize();
        }
      }
    }

    method Remove(key: Key) returns (result: Option<nat>)
      requires Valid()
      modifies this
      ensures Valid() && contents == old(contents) - {key}
      ensures result == if key in old(contents) then Some(old(contents)[key]) else None
    {
      var b, i := FindPointer(key);
      if i < |list[b]| {
        result := Some(list[b][i].id);
        DropFromChain(list, contents, b, i);
        list := list[b := list[b][..i] + list[b][i + 1..]];
        contents := contents - {key};
        elems := elems - 1;
      } else {
        assert contents - {key} == contents;
        result := None;
      }
    }

    /** Moves all entries to a table with as many buckets as entries at least. */
    method Resize()
      requires |list| == length && length > 0 && TableHolds(list, contents) && elems == |contents|
      modifies this`length, this`list
      ensures Valid()
    {
      var newLength := 4;
      while newLength < elems
        invariant newLength >= 4 && IsPowerOfTwo(newLength)
      {
        newLength := newLength * 2;
      }
      var newList: seq<seq<Slot>> := seq(newLength, _ => []);
      ghost var done: map<Key, nat> := map[];
      var i := 0;
      while i < length
        invariant list == old(list) && length == old(length) && i <= length
        invariant |newList| == newLength && TableHolds(newList, done)
        invariant Moved(list, contents, done, i, 0)
      {
        newList, done := MoveChain(newList, done, i);
        i := i + 1;
      }
      AllMoved(list, contents, done);
      list := newList;
      length := newLength;
    }

    /** Moves one chain; every entry goes to the front of its new chain. */
    method MoveChain(newList: seq<seq<Slot>>, ghost before: map<Key, nat>, i: nat)
      returns (r: seq<seq<Slot>>, ghost done: map<Key, nat>)
      requires |list| == length && TableHolds(list, contents) && i < length && TableHolds(newList, before)
      requires Moved(list, contents, before, i, 0)
      ensures |r| == |newList| && TableHolds(r, done) && Moved(list, contents, done, i + 1, 0)
    {
      r, done := newList, before;
      for j := 0 to |list[i]|
        invariant |r| == |newList| && TableHolds(r, done) && Moved(list, contents, done, i, j)
      {
        var slot := list[i][j];
        var b := slot.key.1 % |r|;
        NotMovedYet(list, contents, done, i, j);
        AddToFront(r, done, b, slot);
        r := r[b := [slot] + r[b]];
        done := done[slot.key := slot.id];
      }
      ChainMoved(list, contents, done, i);
    }
  }

  /** The entries of the first `i` chains, and `j` of the next, have been moved. */
  ghost predicate Moved(list: seq<seq<Slot>>, contents: map<Key, nat>, done: map<Key, nat>, i: nat, j: nat) {
    && 0 < |list| && i <= |list| && (i < |list| ==> j <= |list[i]|)
    && (forall k :: k in done ==> k in contents && done[k] == contents[k])
    && (forall k :: k in contents ==>
          (k in done <==> k.1 % |list| < i || (k.1 % |list| == i < |list| && Slot(k, contents[k]) in list[i][..j])))
  }

  lemma NotMovedYet(list: seq<seq<Slot>>, contents: map<Key, nat>, done: map<Key, nat>, i: nat, j: nat)
    requires TableHolds(list, contents) && i < |list| && j < |list[i]| && Moved(list, contents, done, i, j)
    ensures var slot := list[i][j];
            slot.key !in done && Moved(list, contents, done[slot.key := slot.id], i, j + 1)
  {
    var slot := list[i][j];
    assert ChainHolds(list[i], contents, |list|, i) && slot in list[i];
    forall m | 0 <= m < j ensures list[i][m].key != slot.key {}
    assert list[i][..j + 1] == list[i][..j] + [slot];
  }

  lemma ChainMoved(list: seq<seq<Slot>>, contents: map<Key, nat>, done: map<Key, nat>, i: nat)
    requires TableHolds(list, contents) && i < |list| && Moved(list, contents, done, i, |list[i]|)
    ensures Moved(list, contents, done, i + 1, 0)
  {
    assert ChainHolds(list[i], contents, |list|, i) && list[i][..|list[i]|] == list[i];
  }

  lemma AllMoved(list: seq<seq<Slot>>, contents: map<Key, nat>, done: map<Key, nat>)
    requires Moved(list, contents, done, |list|, 0)
    ensures done == contents
  {
    forall k | k in contents ensures k in done {}
  }

  /** A chain that does not get the key is not concerned. */
  lemma OtherChain(chain: seq<Slot>, contents: map<Key, nat>, contents': map<Key, nat>, length: nat, b: nat, key: Key)
    requires length > 0 && ChainHolds(chain, contents, length, b) && key.1 % length != b
    requires forall k :: k != key ==>
               (k in contents <==> k in contents') && (k in contents ==> contents[k] == contents'[k])
    ensures ChainHolds(chain, contents', length, b)
  {
  }

  lemma AddToFront(list: seq<seq<Slot>>, contents: map<Key, nat>, b: nat, slot: Slot)
    requires TableHolds(list, contents) && b < |list| && slot.key.1 % |list| == b && slot.key !in contents
    ensures TableHolds(list[b := [slot] + list[b]], contents[slot.key := slot.id])
  {
    var list', contents' := list[b := [slot] + list[b]], contents[slot.key := slot.id];
    forall c | 0 <= c < |list'| ensures ChainHolds(list'[c], contents', |list'|, c) {
      if c == b {
        AddToOne(list[b], contents, |list|, b, slot, list'[b]);
      } else {
        OtherChain(list[c], contents, contents', |list|, c, slot.key);
      }
    }
  }

  lemma AddToOne(chain: seq<Slot>, contents: map<Key, nat>, length: nat, b: nat, slot: Slot, chain': seq<Slot>)
    requires length > 0 && ChainHolds(chain, contents, length, b) && slot.key.1 % length == b && slot.key !in contents
    requires chain' == [slot] + chain || chain' == chain + [slot]
    ensures ChainHolds(chain', contents[slot.key := slot.id], length, b)
  {
    forall s | s in chain ensures s.key != slot.key {}
    assert forall s :: s in chain' <==> s in chain || s == slot;
  }

  lemma AddToChain(list: seq<seq<Slot>>, contents: map<Key, nat>, b: nat, key: Key, id: nat)
    requires TableHolds(list, contents) && b < |list| && key.1 % |list| == b && key !in contents
    ensures TableHolds(list[b := list[b] + [Slot(key, id)]], contents[key := id])
  {
    var list', contents' := list[b := list[b] + [Slot(key, id)]], contents[key := id];
    forall c | 0 <= c < |list'| ensures ChainHolds(list'[c], contents', |list'|, c) {
      if c == b {
        AddToOne(list[b], contents, |list|, b, Slot(key, id), list'[b]);
      } else {
        OtherChain(list[c], contents, contents', |list|, c, key);
      }
    }
  }

  lemma ReplaceInOne(chain: seq<Slot>, contents: map<Key, nat>, length: nat, b: nat, i: nat, id: nat)
    requires length > 0 && ChainHolds(chain, contents, length, b) && i < |chain|
    ensures ChainHolds(chain[i := Slot(chain[i].key, id)], contents[chain[i].key := id], length, b)
  {
    var key := chain[i].key;
    var chain', contents' := chain[i := Slot(key, id)], contents[key := id];
    assert chain[i] in chain;
    forall s | s in chain' ensures s.key.1 % length == b && s.key in contents' && contents'[s.key] == s.id {
      var j :| 0 <= j < |chain'| && chain'[j] == s;
      assert chain[j] in chain;
    }
    forall k | k in contents' && k.1 % length == b ensures Slot(k, contents'[k]) in chain' {
      if k == key {
        assert chain'[i] == Slot(k, id);
      } else {
        var j :| 0 <= j < |chain| && chain[j] == Slot(k, contents[k]);
        assert chain'[j] == chain[j];
      }
    }
  }

  lemma ReplaceInChain(list: seq<seq<Slot>>, contents: map<Key, nat>, b: nat, i: nat, id: nat)
    requires TableHolds(list, contents) && b < |list| && i < |list[b]|
    ensures var key := list[b][i].key;
            TableHolds(list[b := list[b][i := Slot(key, id)]], contents[key := id])
  {
    var key := list[b][i].key;
    var list', contents' := list[b := list[b][i := Slot(key, id)]], contents[key := id];
    assert ChainHolds(list[b], contents, |list|, b) && list[b][i] in list[b];
    forall c | 0 <= c < |list'| ensures ChainHolds(list'[c], contents', |list'|, c) {
      if c == b {
        ReplaceInOne(list[b], contents, |list|, b, i, id);
      } else {
        OtherChain(list[c], contents, contents', |list|, c, key);
      }
    }
  }

  lemma Dropped(chain: seq<Slot>, i: nat)
    requires i < |chain| && forall i, j :: 0 <= i < j < |chain| ==> chain[i].key != chain[j].key
    ensures forall s :: s in chain[..i] + chain[i + 1..] <==> s in chain && s.key != chain[i].key
  {
    var chain' := chain[..i] + chain[i + 1..];
    forall s | s in chain' ensures s in chain && s.key != chain[i].key {
      var j :| 0 <= j < |chain'| && chain'[j] == s;
      assert s == chain[if j < i then j else j + 1];
    }
    forall s | s in chain && s.key != chain[i].key ensures s in chain' {
      var j :| 0 <= j < |chain| && chain[j] == s;
      assert s == chain'[if j < i then j else j - 1];
    }
  }

  lemma DropFromOne(chain: seq<Slot>, contents: map<Key, nat>, length: nat, b: nat, i: nat)
    requires length > 0 && ChainHolds(chain, contents, length, b) && i < |chain|
    ensures ChainHolds(chain[..i] + chain[i + 1..], contents - {chain[i].key}, length, b)
  {
    Dropped(chain, i);
  }

  lemma DropFromChain(list: seq<seq<Slot>>, contents: map<Key, nat>, b: nat, i: nat)
    requires TableHolds(list, contents) && b < |list| && i < |list[b]|
    ensures TableHolds(list[b := list[b][..i] + list[b][i + 1..]], contents - {list[b][i].key})
  {
    var key := list[b][i].key;
    var list', contents' := list[b := list[b][..i] + list[b][i + 1..]], contents - {key};
    assert ChainHolds(list[b], contents, |list|, b) && list[b][i] in list[b];
    forall c | 0 <= c < |list'| ensures ChainHolds(list'[c], contents', |list'|, c) {
      if c == b {
        DropFromOne(list[b], contents, |list|, b, i);
      } else {
        OtherChain(list[c], contents, contents', |list|, c, key);
      }
    }
  }
}
