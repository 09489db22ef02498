/** The iterator of a block (table/block.cc, Block::Iter). */
module BlockIterator {
  import opened Wrappers
  import opened Bytes
  import opened Coding
  import opened Blocks
  import opened BlockFiles

  type Order = (seq<byte>, seq<byte>) -> bool

  ghost predicate Ascending(less: Order, items: seq<Item>) {
    forall i, j :: 0 <= i < j < |items| ==> less(items[i].key, items[j].key)
  }

  ghost predicate Transitive(less: Order) {
    forall a, b, c :: less(a, b) && less(b, c) ==> less(a, c)
  }

  /** The entries before `i` are those whose keys come before the target. */
  ghost predicate IsFirstFrom(less: Order, items: seq<Item>, target: seq<byte>, i: nat) {
    && i <= |items| && (forall j :: 0 <= j < i ==> less(items[j].key, target))
    && (i < |items| ==> !less(items[i].key, target))
  }

  lemma {:induction false} OffsetsAscend(get: nat -> Option<Decoded>, data: seq<byte>, base: nat, items: seq<Item>,
                                         shares: seq<nat>, offsets: seq<nat>, i: nat, j: nat)
    requires Laid(get, data, base, items, shares, offsets) && i <= j <= |items|
    ensures offsets[i] <= offsets[j] <= base && (i < j ==> offsets[i] < offsets[j])
    decreases |items| - i
  {
    if i < |items| {
      assert EntryLaid(get, data, base, items, shares, offsets, i);
      OffsetsAscend(get, data, base, items, shares, offsets, i + 1, if i < j then j else i + 1);
    }
  }

  /** Parsing at an entry, behind the key before it or at a restart point, gives the entry. */
  lemma EntryParses(get: nat -> Option<Decoded>, data: seq<byte>, base: nat, items: seq<Item>, shares: seq<nat>,
                    offsets: seq<nat>, i: nat, key: seq<byte>)
    requires Laid(get, data, base, items, shares, offsets) && i < |items|
          && (key == KeyBefore(items, i) || shares[i] == 0)
    requires offsets[i] <= base
    ensures DecodeEntry(get, data, offsets[i], base).Some?
    ensures var h := DecodeEntry(get, data, offsets[i], base).value;
            && h.shared <= |key| && key[..h.shared] + data[h.start..h.start + h.nonShared] == items[i].key
            && data[h.start + h.nonShared..h.start + h.nonShared + h.valueLength] == items[i].value
            && h.start + h.nonShared + h.valueLength == offsets[i + 1]
  {
    assert EntryLaid(get, data, base, items, shares, offsets, i);
    if shares[i] == 0 {
      assert key[..0] == KeyBefore(items, i)[..0];
    }
  }

  class Iter {
    const less: Order
    const get: nat -> Option<Decoded>    // how a length is read
    const data: seq<byte>
    const base: nat                  // where the restart points start
    const num: nat
    var current: nat                 // the offset of the current entry; base when the iterator is not valid
    var restartIndex: nat
    var key: seq<byte>
    var valueStart: nat
    var valueLength: nat
    ghost const items: seq<Item>
    ghost const shares: seq<nat>
    ghost const offsets: seq<nat>
    ghost const points: seq<nat>
    ghost var pos: nat               // the index of the current entry; |items| when the iterator is not valid

    ghost predicate Block()
    {
      IsBlock(get, data, base, num, items, shares, offsets, points)
    }

    /** The restart index is for the entry: its point is not behind, and the next one not before. */
    ghost predicate RightRestart(r: nat, i: nat)
      requires Block()
    {
      r < num && points[r] <= i && (r + 1 < num ==> points[r + 1] >= i)
    }

    ghost predicate Ok()
      reads this
    {
      && Block() && pos <= |items| && Valid() == (pos < |items|)
      && (pos < |items| ==>
            && current == offsets[pos] && key == items[pos].key
            && valueStart + valueLength == offsets[pos + 1] <= base
              && data[valueStart..valueStart + valueLength] == items[pos].value
            && RightRestart(restartIndex, pos))
    }

    predicate Valid()
      reads this
    {
      current < base
    }

    function Value(): seq<byte>
      requires valueStart + valueLength <= |data|
      reads this
    {
      data[valueStart..valueStart + valueLength]
    }

    function NextEntryOffset(): nat
      reads this
    {
      valueStart + valueLength
    }

    /** The next entry to parse is the one at `i`, and its shared prefix is at hand. */
    ghost predicate BeforeEntry(i: nat)
      reads this
    {
      && Block() && i <= |items| && NextEntryOffset() == offsets[i]
      && (i < |items| ==>
           (key == KeyBefore(items, i) || shares[i] == 0) && restartIndex < num && points[restartIndex] <= i)
    }

    constructor (less: Order, get: nat -> Option<Decoded>, data: seq<byte>, base: nat, num: nat,
                 ghost items: seq<Item>, ghost shares: seq<nat>, ghost offsets: seq<nat>, ghost points: seq<nat>)
      requires IsBlock(get, data, base, num, items, shares, offsets, points)
      ensures Ok() && !Valid() && this.less == less && this.items == items
    {
      this.less, this.get, this.data, this.base, this.num := less, get, data, base, num;
      this.items, this.shares, this.offsets, this.points := items, shares, offsets, points;
      current, restartIndex, key, valueStart, valueLength, pos := base, num, [], 0, 0, |items|;
    }

    method SeekToRestartPoint(index: nat)
      requires Block() && index < num
      modifies this`key, this`restartIndex, this`valueStart, this`valueLength
      ensures BeforeEntry(points[index]) && restartIndex == index
    {
      key := [];
      restartIndex := index;
      valueStart, valueLength := Fixed32At(data, base, index), 0;
    }

    method ParseNextKey(ghost i: nat) returns (ok: bool)
      requires BeforeEntry(i)
      modifies this`current, this`key, this`restartIndex, this`valueStart, this`valueLength, this`pos
      ensures Ok() && pos == i && ok == (i < |items|)
    {
      pos := i;
      current := NextEntryOffset();
      OffsetsAscend(get, data, base, items, shares, offsets, i, |items|);
      if i < |items| { OffsetsAscend(get, data, base, items, shares, offsets, i + 1, |items|); }
      if current >= base {
        current := base;
        restartIndex := num;
        return false;
      }
      ParseEntry(i);
      AdvanceRestart();
      return true;
    }

    method ParseEntry(ghost i: nat)
      requires Block() && i < |items| && current == offsets[i] <= base && (key == KeyBefore(items, i) || shares[i] == 0)
      modifies this`key, this`valueStart, this`valueLength
      ensures key == items[i].key && valueStart + valueLength == offsets[i + 1]
      ensures valueStart + valueLength <= |data| && Value() == items[i].value
    {
      EntryParses(get, data, base, items, shares, offsets, i, key);
      var h := DecodeEntry(get, data, current, base).value;
      key := key[..h.shared] + data[h.start..h.start + h.nonShared];
      valueStart, valueLength := h.start + h.nonShared, h.valueLength;
    }

    /** The restart index follows the current entry. */
    method AdvanceRestart()
      requires Block() && pos < |items| && current == offsets[pos] && restartIndex < num && points[restartIndex] <= pos
      modifies this`restartIndex
      ensures RightRestart(restartIndex, pos)
    {
      while restartIndex + 1 < num && Fixed32At(data, base, restartIndex + 1) < current
        invariant restartIndex < num && points[restartIndex] <= pos
        decreases num - restartIndex
      {
        if points[restartIndex + 1] > pos {
          OffsetsAscend(get, data, base, items, shares, offsets, pos, points[restartIndex + 1]);
        }
        restartIndex := restartIndex + 1;
      }
      if restartIndex + 1 < num && points[restartIndex + 1] < pos {
        OffsetsAscend(get, data, base, items, shares, offsets, points[restartIndex + 1], pos);
      }
    }

    method SeekToFirst()
      requires Ok()
      modifies this
      ensures Ok() && pos == 0
    {
      SeekToRestartPoint(0);
      var ok := ParseNextKey(0);
    }

    method SeekToLast()
      requires Ok()
      modifies this
      ensures Ok() && pos == if items == [] then 0 else |items| - 1
    {
      SeekToRestartPoint(num - 1);
      var ok := ParseNextKey(points[num - 1]);
      while ok && NextEntryOffset() < base
        invariant Ok() && ok == Valid() && (items == [] <==> !ok)
        decreases |items| - pos
      {
        NotLast();
        ok := ParseNextKey(pos + 1);
      }
      if ok && pos < |items| - 1 {
        OffsetsAscend(get, data, base, items, shares, offsets, pos + 1, |items|);
      }
    }

    method Next()
      requires Ok() && Valid()
      modifies this
      ensures Ok() && pos == old(pos) + 1
    {
      var ok := ParseNextKey(pos + 1);
    }

    /** The current entry does not end at the limit, so it is not the last one. */
    lemma NotLast()
      requires Ok() && Valid() && NextEntryOffset() < base
      ensures pos + 1 < |items|
    {
      assert offsets[pos + 1] < offsets[|items|];
    }

    /** Goes back to a restart point before the entry, and forward to the entry before it. */
    method Prev()
      requires Ok() && Valid()
      modifies this
      ensures Ok() && pos == if old(pos) == 0 then |items| else old(pos) - 1
    {
      var original := current;
      ghost var target := pos;
      var found := RestartBefore(original);
      if !found {
        current := base;
        restartIndex := num;
        pos := |items|;
        return;
      }
      SeekToRestartPoint(restartIndex);
      var ok := ParseNextKey(points[restartIndex]);
      while ok && NextEntryOffset() < original
        invariant Ok() && ok && pos < target
        decreases target - pos
      {
        StillBefore(pos + 1, target);
        ok := ParseNextKey(pos + 1);
      }
      ReachedEntry(target);
    }

    /** The loop that looks for a restart point before an offset. */
    method RestartBefore(original: nat) returns (found: bool)
      requires Ok() && Valid() && original == current
      modifies this`restartIndex
      ensures found == (pos > 0)
      ensures found ==> restartIndex < num && points[restartIndex] < pos
    {
      while Fixed32At(data, base, restartIndex) >= original
        invariant restartIndex < num && current == original
        decreases restartIndex
      {
        if points[restartIndex] < pos {
          OffsetsAscend(get, data, base, items, shares, offsets, points[restartIndex], pos);
        }
        if restartIndex == 0 {
          return false;
        }
        restartIndex := restartIndex - 1;
      }
      if points[restartIndex] >= pos {
        OffsetsAscend(get, data, base, items, shares, offsets, pos, points[restartIndex]);
      }
      return true;
    }

    /** Parsing goes on while the entry after the current one is still before the original. */
    lemma StillBefore(next: nat, target: nat)
      requires Ok() && next == pos + 1 <= target <= |items| && NextEntryOffset() < offsets[target]
      ensures next < target
    {
    }

    lemma ReachedEntry(target: nat)
      requires Ok() && pos < target <= |items| && NextEntryOffset() >= offsets[target]
      ensures pos == target - 1
    {
      if pos + 1 < target {
        OffsetsAscend(get, data, base, items, shares, offsets, pos + 1, target);
      }
    }

    method Seek(target: seq<byte>)
      requires Ok() && Transitive(less) && Ascending(less, items)
      modifies this
      ensures Ok() && IsFirstFrom(less, items, target, pos)
    {
      var left := LastRestartBefore(target);
      SeekToRestartPoint(left);
      EarlierKeys(target, left);
      ScanFor(target, points[left]);
    }

    /** The linear search from a restart point. */
    method ScanFor(target: seq<byte>, ghost start: nat)
      requires BeforeEntry(start) && AllBefore(target, start)
      modifies this
      ensures Ok() && IsFirstFrom(less, items, target, pos)
    {
      var ok := ParseNextKey(start);
      while ok && less(key, target)
        invariant Ok() && ok == Valid() && AllBefore(target, pos)
        decreases |items| - pos
      {
        ok := ParseFollowing(target);
      }
    }

    ghost predicate AllBefore(target: seq<byte>, i: nat) {
      i <= |items| && forall j :: 0 <= j < i ==> less(items[j].key, target)
    }

    /** The current entry comes before the target: on to the next. */
    method ParseFollowing(target: seq<byte>) returns (ok: bool)
      requires Ok() && Valid() && AllBefore(target, pos) && less(key, target)
      modifies this`current, this`key, this`restartIndex, this`valueStart, this`valueLength, this`pos
      ensures Ok() && pos == old(pos) + 1 && ok == Valid() && AllBefore(target, pos)
    {
      ok := ParseNextKey(pos + 1);
    }

    /** The binary search for the last restart point whose key is before the target. */
    method LastRestartBefore(target: seq<byte>) returns (left: nat)
      requires Ok()
      ensures left < num && (left > 0 ==> less(items[points[left]].key, target))
      ensures left + 1 < num && Transitive(less) && Ascending(less, items) ==>
                !less(items[points[left + 1]].key, target)
    {
      left := 0;
      var right := num - 1;
      while left < right
        invariant 0 <= left <= right < num && (left > 0 ==> less(items[points[left]].key, target))
        invariant right + 1 < num ==> !less(items[points[right + 1]].key, target)
      {
        var mid := (left + right + 1) / 2;
        var midKey := RestartKey(mid);
        if less(midKey, target) {
          left := mid;
        } else {
          right := mid - 1;
        }
      }
    }

    /** The key at a restart point is stored whole. */
    method RestartKey(index: nat) returns (r: seq<byte>)
      requires Block() && 0 < index < num
      ensures r == items[points[index]].key
    {
      OffsetsAscend(get, data, base, items, shares, offsets, points[index], |items|);
      EntryParses(get, data, base, items, shares, offsets, points[index], []);
      var h := DecodeEntry(get, data, Fixed32At(data, base, index), base).value;
      r := data[h.start..h.start + h.nonShared];
    }

    lemma EarlierKeys(target: seq<byte>, left: nat)
      requires Block() && Transitive(less) && Ascending(less, items)
      requires left < num && (left > 0 ==> less(items[points[left]].key, target))
      ensures forall j :: 0 <= j < points[left] ==> less(items[j].key, target)
    {
      if left > 0 {
        forall j | 0 <= j < points[left] ensures less(items[j].key, target) {
          assert less(items[j].key, items[points[left]].key);
        }
      }
    }
  }
}
