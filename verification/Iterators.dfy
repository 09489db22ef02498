/** The contract of an internal iterator: a cursor on a list of entries in internal key order
    (include/leveldb/iterator.h).  An iterator that is not valid has no position. */
module Iterators {
  import opened InternalKeys

  /** The entries before `i` are those whose keys precede `target`. */
  ghost predicate IsLowerBound(run: seq<Entry>, target: InternalKey, i: nat) {
    && i <= |run|
    && (forall j :: 0 <= j < i ==> Precedes(run[j].key, target))
    && (forall j :: i <= j < |run| ==> !Precedes(run[j].key, target))
  }

  class ListIterator {
    const run: seq<Entry>
    var pos: nat               // |run| when the iterator is not valid

    ghost predicate Ok()
      reads this
    {
      Sorted(run) && pos <= |run|
    }

    constructor (run: seq<Entry>)
      requires Sorted(run)
      ensures Ok() && this.run == run && !Valid()
    {
      this.run := run;
      pos := |run|;
    }

    predicate Valid()
      reads this
    {
      pos < |run|
    }

    function Key(): InternalKey
      requires Valid()
      reads this
    {
      run[pos].key
    }

    function Value(): string
      requires Valid()
      reads this
    {
      run[pos].value
    }

    method SeekToFirst()
      requires Ok()
      modifies this`pos
      ensures Ok() && pos == 0
    {
      pos := 0;
    }

    method SeekToLast()
      requires Ok()
      modifies this`pos
      ensures Ok() && pos == if run == [] then 0 else |run| - 1
    {
      pos := if run == [] then 0 else |run| - 1;
    }

    method Seek(target: InternalKey)
      requires Ok()
      modifies this`pos
      ensures Ok() && IsLowerBound(run, target, pos)
    {
      pos := 0;
      while pos < |run| && Precedes(run[pos].key, target)
        invariant pos <= |run| && forall j :: 0 <= j < pos ==> Precedes(run[j].key, target)
      {
        pos := pos + 1;
      }
    }

    method Next()
      requires Ok() && Valid()
      modifies this`pos
      ensures Ok() && pos == old(pos) + 1
    {
      pos := pos + 1;
    }

    method Prev()
      requires Ok() && Valid()
      modifies this`pos
      ensures Ok() && pos == if old(pos) == 0 then |run| else old(pos) - 1
    {
      pos := if pos == 0 then |run| else pos - 1;
    }
  }
}
