/** The merging iterator (table/merger.cc): a cursor on the sorted union of its children, in both
    directions, when no key occurs in two children. */
module Merger {
  import opened InternalKeys
  import opened Iterators

  datatype Direction = Forward | Reverse

  // --------------------------------------------------- where children stand

  /** A child stands at its first entry from position `p` of the union on. */
  ghost predicate AtOrAfter(child: seq<Entry>, run: seq<Entry>, p: nat, i: nat) {
    if p < |run| then IsLowerBound(child, run[p].key, i) else i == |child|
  }

  /** A child stands at its last entry up to position `p` of the union; -1 is off the front. */
  ghost predicate AtOrBefore(child: seq<Entry>, run: seq<Entry>, p: int, i: int) {
    && -1 <= p < |run| && -1 <= i < |child|
    && if p < 0 then i == -1 else
         && (forall j :: 0 <= j <= i ==> !Precedes(run[p].key, child[j].key))
         && (forall j :: i < j < |child| ==> Precedes(run[p].key, child[j].key))
  }

  lemma Ordered(run: seq<Entry>, i: nat, j: nat)
    requires Sorted(run) && i < |run| && j < |run|
    ensures Precedes(run[i].key, run[j].key) <==> i < j
  {
    if j < i { assert Precedes(run[j].key, run[i].key); }
  }

  /** Every entry of a child has its place in the union. */
  ghost predicate Part(child: seq<Entry>, run: seq<Entry>) {
    Sorted(child) && Sorted(run) && forall e :: e in child ==> e in run
  }

  lemma Place(child: seq<Entry>, run: seq<Entry>, j: nat) returns (q: nat)
    requires Part(child, run) && j < |child|
    ensures q < |run| && run[q] == child[j]
  {
    assert child[j] in run;
    q :| 0 <= q < |run| && run[q] == child[j];
  }

  lemma SameEntry(child: seq<Entry>, run: seq<Entry>, j: nat, p: nat)
    requires Part(child, run) && j < |child| && p < |run|
    requires !Precedes(child[j].key, run[p].key) && !Precedes(run[p].key, child[j].key)
    ensures child[j] == run[p]
  {
    var q := Place(child, run, j);
    Ordered(run, q, p);
    Ordered(run, p, q);
  }

  /** The child that holds the entry at `p` stands at it. */
  lemma StandsAtEntry(child: seq<Entry>, run: seq<Entry>, p: nat, i: nat)
    requires Part(child, run) && p < |run| && AtOrAfter(child, run, p, i) && run[p] in child
    ensures i < |child| && child[i] == run[p]
  {
    var j :| 0 <= j < |child| && child[j] == run[p];
    assert i <= j;
    Ordered(child, i, j);
  }

  lemma StandsAtEntryBack(child: seq<Entry>, run: seq<Entry>, p: nat, i: int)
    requires Part(child, run) && AtOrBefore(child, run, p, i) && run[p] in child
    ensures 0 <= i && child[i] == run[p]
  {
    var j :| 0 <= j < |child| && child[j] == run[p];
    assert j <= i;
    Ordered(child, j, i);
  }

  /** Moving on past position `p`. */
  lemma StepForward(child: seq<Entry>, run: seq<Entry>, p: nat, i: nat, i': nat)
    requires Part(child, run) && p < |run| && AtOrAfter(child, run, p, i)
    requires i' == if i < |child| && child[i] == run[p] then i + 1 else i
    ensures AtOrAfter(child, run, p + 1, i')
  {
    forall j | 0 <= j < |child|
      ensures j < i' ==> p + 1 < |run| ==> Precedes(child[j].key, run[p + 1].key)
      ensures j >= i' ==> p + 1 < |run| && !Precedes(child[j].key, run[p + 1].key)
    {
      var q := Place(child, run, j);
      Ordered(run, q, p);
      if p + 1 < |run| { Ordered(run, q, p + 1); }
      if j == i { assert q == p <==> child[i] == run[p]; }
      if i < j { Ordered(child, i, j); }
    }
    if i' < |child| {
      assert child[i'] in run && p + 1 < |run|;
    }
  }

  lemma StepBack(child: seq<Entry>, run: seq<Entry>, p: nat, i: int, i': int)
    requires Part(child, run) && AtOrBefore(child, run, p, i)
    requires i' == if i >= 0 && child[i] == run[p] then i - 1 else i
    ensures AtOrBefore(child, run, p - 1, i')
  {
    forall j | 0 <= j < |child|
      ensures j > i' ==> p > 0 ==> Precedes(run[p - 1].key, child[j].key)
      ensures j <= i' ==> p > 0 && !Precedes(run[p - 1].key, child[j].key)
    {
      var q := Place(child, run, j);
      Ordered(run, p, q);
      if p > 0 { Ordered(run, p - 1, q); }
      if 0 <= i && j < i { Ordered(child, j, i); }
    }
    if i' >= 0 {
      assert child[i'] in run && p > 0;
    }
  }

  lemma FrontIsFirst(child: seq<Entry>, run: seq<Entry>)
    requires Part(child, run)
    ensures AtOrAfter(child, run, 0, 0)
  {
    forall j | 0 <= j < |child| ensures |run| > 0 && !Precedes(child[j].key, run[0].key) {
      var q := Place(child, run, j);
      Ordered(run, q, 0);
    }
    if child != [] {
      assert child[0] in run;
    }
  }

  lemma BackIsLast(child: seq<Entry>, run: seq<Entry>)
    requires Part(child, run)
    ensures AtOrBefore(child, run, |run| - 1, |child| - 1)
  {
    forall j | 0 <= j < |child| ensures |run| > 0 && !Precedes(run[|run| - 1].key, child[j].key) {
      var q := Place(child, run, j);
      Ordered(run, |run| - 1, q);
    }
    if child != [] {
      assert child[0] in run;
    }
  }

  lemma {:induction false} LowerBoundExists(run: seq<Entry>, target: InternalKey) returns (p: nat)
    requires Sorted(run)
    ensures IsLowerBound(run, target, p)
  {
    p := 0;
    while p < |run| && Precedes(run[p].key, target)
      invariant p <= |run| && forall j :: 0 <= j < p ==> Precedes(run[j].key, target)
    {
      p := p + 1;
    }
  }

  /** Children that sought a target stand where the union does. */
  lemma SoughtIsAfter(child: seq<Entry>, run: seq<Entry>, target: InternalKey, p: nat, i: nat)
    requires Part(child, run) && IsLowerBound(run, target, p) && IsLowerBound(child, target, i)
    ensures AtOrAfter(child, run, p, i)
  {
    forall j | 0 <= j < |child|
      ensures j < i ==> p < |run| ==> Precedes(child[j].key, run[p].key)
      ensures j >= i ==> p < |run| && !Precedes(child[j].key, run[p].key)
    {
      var q := Place(child, run, j);
      if p < |run| { Ordered(run, q, p); }
    }
    if i < |child| {
      assert child[i] in run && p < |run|;
    }
  }

  /** A child without the current key that sought it and stepped back stands before it. */
  lemma SoughtIsBefore(child: seq<Entry>, run: seq<Entry>, p: nat, i: nat)
    requires Part(child, run) && p < |run| && run[p] !in child && IsLowerBound(child, run[p].key, i)
    ensures AtOrBefore(child, run, p, i - 1)
  {
    forall j | i <= j < |child| ensures Precedes(run[p].key, child[j].key) {
      var q := Place(child, run, j);
      Ordered(run, q, p);
      Ordered(run, p, q);
      assert child[j] in child;
    }
  }

  ghost predicate IsUpperBound(run: seq<Entry>, key: InternalKey, i: nat) {
    && i <= |run|
    && (forall j :: 0 <= j < i ==> !Precedes(key, run[j].key))
    && (forall j :: i <= j < |run| ==> Precedes(key, run[j].key))
  }

  /** A child without the current key that sought past it stands after it. */
  lemma PastIsAfter(child: seq<Entry>, run: seq<Entry>, p: nat, i: nat)
    requires Part(child, run) && p < |run| && run[p] !in child && IsUpperBound(child, run[p].key, i)
    ensures AtOrAfter(child, run, p, i)
  {
    forall j | 0 <= j < i ensures Precedes(child[j].key, run[p].key) {
      var q := Place(child, run, j);
      Ordered(run, q, p);
      Ordered(run, p, q);
      assert child[j] in child;
    }
  }

  lemma HereIsAfter(child: seq<Entry>, run: seq<Entry>, p: nat, i: nat)
    requires Part(child, run) && p < |run| && i < |child| && child[i] == run[p]
    ensures AtOrAfter(child, run, p, i)
  {
    forall j | 0 <= j < |child| ensures Precedes(child[j].key, child[i].key) <==> j < i {
      Ordered(child, j, i);
    }
  }

  lemma HereIsBefore(child: seq<Entry>, run: seq<Entry>, p: nat, i: nat)
    requires Part(child, run) && p < |run| && i < |child| && child[i] == run[p]
    ensures AtOrBefore(child, run, p, i)
  {
    forall j | 0 <= j < |child| ensures Precedes(child[i].key, child[j].key) <==> i < j {
      Ordered(child, i, j);
    }
  }

  // ------------------------------------------------------------ the iterator

  /** The children are different, share no entry, and have this union.  The union being strictly
      sorted, no key occurs in two children. */
  ghost predicate IsUnion(children: seq<ListIterator>, run: seq<Entry>) {
    && (forall c, d :: 0 <= c < d < |children| ==> children[c] != children[d])
    && (forall c :: 0 <= c < |children| ==> Part(children[c].run, run))
    && Sorted(run) && (forall e :: e in run ==> exists c :: 0 <= c < |children| && e in children[c].run)
    && (forall c, d, x :: 0 <= c < |children| && 0 <= d < |children| && c != d && x in children[c].run ==>
         x !in children[d].run)
  }

  class MergingIterator {
    const children: seq<ListIterator>
    ghost const run: seq<Entry>        // the sorted union of the children
    ghost var pos: nat                 // the position in it; |run| when the iterator is not valid
    var current: int                   // the child to yield, -1 for none
    var direction: Direction

    ghost predicate Union() {
      IsUnion(children, run)
    }

    ghost predicate Merges()
      reads children
    {
      Union() && forall c :: 0 <= c < |children| ==> children[c].Ok()
    }

    ghost predicate AllAtOrAfter()
      reads this, children
    {
      forall c :: 0 <= c < |children| ==> AtOrAfter(children[c].run, run, pos, children[c].pos)
    }

    ghost predicate AllAtOrBefore(p: int)
      reads this, children
    {
      forall c :: 0 <= c < |children| ==> AtOrBefore(children[c].run, run, p, Index(children[c]))
    }

    /** The index at which a child stands, -1 when it ran off the front. */
    ghost static function Index(child: ListIterator): int
      reads child
    {
      if child.Valid() then child.pos else -1
    }

    ghost predicate Ok()
      reads this, children
    {
      && Merges() && pos <= |run| && -1 <= current < |children|
      && (current < 0 <==> pos == |run|)
      && (current >= 0 ==> children[current].Valid() && children[current].run[children[current].pos] == run[pos])
      && (current >= 0 ==> if direction.Forward? then AllAtOrAfter() else AllAtOrBefore(pos))
    }

    constructor (children: seq<ListIterator>, ghost run: seq<Entry>)
      requires IsUnion(children, run) && forall c :: 0 <= c < |children| ==> children[c].Ok()
      ensures Ok() && !Valid() && this.children == children && this.run == run
    {
      this.children := children;
      this.run := run;
      pos := |run|;
      current := -1;
      direction := Forward;
    }

    predicate Valid()
      reads this
    {
      current >= 0
    }

    function Key(): InternalKey
      requires Valid() && current < |children| && children[current].Valid()
      reads this, children
    {
      children[current].Key()
    }

    function Value(): string
      requires Valid() && current < |children| && children[current].Valid()
      reads this, children
    {
      children[current].Value()
    }

    /** What is yielded is the entry of the union. */
    lemma YieldsEntry()
      requires Ok() && Valid()
      ensures pos < |run| && children[current].Valid() && Entry(Key(), Value()) == run[pos]
    {
    }

    /** `c` is a valid child with the smallest key among the first `n`, or -1 if none is valid. */
    ghost predicate Smallest(c: int, n: nat)
      requires n <= |children|
      reads this, children
    {
      && -1 <= c < n && (c >= 0 ==> children[c].Valid())
      && forall d :: 0 <= d < n && children[d].Valid() ==> (c >= 0 && !Precedes(children[d].Key(), children[c].Key()))
    }

    method FindSmallest()
      requires Merges() && pos <= |run| && AllAtOrAfter()
      modifies this`current
      ensures Merges() && AllAtOrAfter() && -1 <= current < |children|
      ensures current < 0 <==> pos == |run|
      ensures current >= 0 ==> children[current].Valid() && children[current].run[children[current].pos] == run[pos]
    {
      var smallest := SearchSmallest();
      SmallestIsNext(smallest);
      current := smallest;
    }

    method SearchSmallest() returns (smallest: int)
      ensures Smallest(smallest, |children|)
    {
      smallest := -1;
      for i := 0 to |children|
        invariant Smallest(smallest, i)
      {
        var child := children[i];
        if child.Valid() {
          if smallest < 0 {
            smallest := i;
          } else if Precedes(child.Key(), children[smallest].Key()) {
            smallest := i;
          }
        }
      }
    }

    /** The smallest child key is the key at the position in the union. */
    lemma SmallestIsNext(c: int)
      requires Merges() && pos <= |run| && AllAtOrAfter() && Smallest(c, |children|)
      ensures c < 0 <==> pos == |run|
      ensures c >= 0 ==> children[c].Valid() && children[c].run[children[c].pos] == run[pos]
    {
      if pos < |run| {
        assert run[pos] in run;
        var d :| 0 <= d < |children| && run[pos] in children[d].run;
        StandsAtEntry(children[d].run, run, pos, children[d].pos);
        assert children[d].Valid() && c >= 0;
        SameEntry(children[c].run, run, children[c].pos, pos);
      }
    }

    ghost predicate Largest(c: int, n: nat)
      requires n <= |children|
      reads this, children
    {
      && -1 <= c < |children| && (c >= 0 ==> n <= c && children[c].Valid())
      && forall d :: n <= d < |children| && children[d].Valid() ==>
           (c >= 0 && !Precedes(children[c].Key(), children[d].Key()))
    }

    method FindLargest(ghost p: int)
      requires Merges() && AllAtOrBefore(p) && -1 <= p < |run|
      modifies this`current, this`pos
      ensures Merges() && AllAtOrBefore(p) && -1 <= current < |children|
      ensures current < 0 <==> p < 0
      ensures current >= 0 ==> children[current].Valid() && children[current].run[children[current].pos] == run[p]
      ensures pos == if p < 0 then |run| else p
    {
      var largest := SearchLargest();
      LargestIsPrevious(largest, p);
      current := largest;
      pos := if p < 0 then |run| else p;
    }

    method SearchLargest() returns (largest: int)
      ensures Largest(largest, 0)
    {
      largest := -1;
      for i := |children| downto 0
        invariant Largest(largest, i)
      {
        var child := children[i];
        if child.Valid() {
          if largest < 0 {
            largest := i;
          } else if Precedes(children[largest].Key(), child.Key()) {
            largest := i;
          }
        }
      }
    }

    lemma LargestIsPrevious(c: int, p: int)
      requires Merges() && -1 <= p < |run| && AllAtOrBefore(p) && Largest(c, 0)
      ensures c < 0 <==> p < 0
      ensures c >= 0 ==> children[c].Valid() && children[c].run[children[c].pos] == run[p]
    {
      if p >= 0 {
        assert run[p] in run;
        var d :| 0 <= d < |children| && run[p] in children[d].run;
        StandsAtEntryBack(children[d].run, run, p, Index(children[d]));
        assert children[d].Valid() && c >= 0;
        SameEntry(children[c].run, run, children[c].pos, p);
      }
    }

    method SeekToFirst()
      requires Merges()
      modifies this, children
      ensures Ok() && pos == 0
    {
      for i := 0 to |children|
        invariant Merges() && forall c :: 0 <= c < i ==> children[c].pos == 0
      {
        children[i].SeekToFirst();
      }
      pos := 0;
      forall c | 0 <= c < |children| ensures AtOrAfter(children[c].run, run, 0, children[c].pos) {
        FrontIsFirst(children[c].run, run);
      }
      FindSmallest();
      direction := Forward;
    }

    method SeekToLast()
      requires Merges()
      modifies this, children
      ensures Ok() && pos == if run == [] then 0 else |run| - 1
    {
      for i := 0 to |children|
        invariant Merges() && forall c :: 0 <= c < i ==> Index(children[c]) == |children[c].run| - 1
      {
        children[i].SeekToLast();
      }
      forall c | 0 <= c < |children| ensures AtOrBefore(children[c].run, run, |run| - 1, Index(children[c])) {
        BackIsLast(children[c].run, run);
      }
      FindLargest(|run| - 1);
      direction := Reverse;
    }

    method Seek(target: InternalKey)
      requires Merges()
      modifies this, children
      ensures Ok() && IsLowerBound(run, target, pos)
    {
      for i := 0 to |children|
        invariant Merges() && forall c :: 0 <= c < i ==> IsLowerBound(children[c].run, target, children[c].pos)
      {
        children[i].Seek(target);
      }
      ghost var p := LowerBoundExists(run, target);
      pos := p;
      forall c | 0 <= c < |children| ensures AtOrAfter(children[c].run, run, pos, children[c].pos) {
        SoughtIsAfter(children[c].run, run, target, pos, children[c].pos);
      }
      FindSmallest();
      direction := Forward;
    }

    method Next()
      requires Ok() && Valid()
      modifies this, children
      ensures Ok() && pos == old(pos) + 1
    {
      if direction.Reverse? {
        PositionAfter();
        direction := Forward;
      }
      AdvanceCurrent();
      FindSmallest();
    }

    method Prev()
      requires Ok() && Valid()
      modifies this, children
      ensures Ok() && pos == if old(pos) == 0 then |run| else old(pos) - 1
    {
      if direction.Forward? {
        PositionBefore();
        direction := Reverse;
      }
      RetreatCurrent();
      FindLargest(pos - 1);
    }

    /** The current child stands at the current entry. */
    ghost predicate CurrentHere()
      reads this, children
    {
      && Merges() && 0 <= current < |children| && pos < |run|
      && children[current].Valid() && children[current].run[children[current].pos] == run[pos]
    }

    /** Every child but the current one goes to its first key after the current key. */
    method PositionAfter()
      requires CurrentHere()
      modifies children
      ensures CurrentHere() && AllAtOrAfter()
    {
      for i := 0 to |children|
        invariant CurrentHere()
        invariant forall c :: 0 <= c < i ==> AtOrAfter(children[c].run, run, pos, children[c].pos)
      {
        if i != current {
          SeekPast(children[i], Key());
          PastIsAfter(children[i].run, run, pos, children[i].pos);
        } else {
          HereIsAfter(children[i].run, run, pos, children[i].pos);
        }
      }
    }

    /** Every child but the current one goes to its last key before the current key. */
    method PositionBefore()
      requires CurrentHere()
      modifies children
      ensures CurrentHere() && AllAtOrBefore(pos)
    {
      for i := 0 to |children|
        invariant CurrentHere()
        invariant forall c :: 0 <= c < i ==> AtOrBefore(children[c].run, run, pos, Index(children[c]))
      {
        if i != current {
          SeekBefore(children[i], Key());
          SoughtIsBefore(children[i].run, run, pos, Index(children[i]) + 1);
        } else {
          HereIsBefore(children[i].run, run, pos, children[i].pos);
        }
      }
    }

    static method SeekPast(child: ListIterator, key: InternalKey)
      requires child.Ok()
      modifies child
      ensures child.Ok() && IsUpperBound(child.run, key, child.pos)
    {
      child.Seek(key);
      if child.Valid() && child.Key() == key {
        child.Next();
      }
    }

    static method SeekBefore(child: ListIterator, key: InternalKey)
      requires child.Ok()
      modifies child
      ensures child.Ok() && IsLowerBound(child.run, key, Index(child) + 1)
    {
      child.Seek(key);
      if child.Valid() {
        child.Prev();
      } else {
        child.SeekToLast();
      }
    }

    /** No other child is the current one or holds its entry. */
    lemma OnlyCurrent(c: nat)
      requires Union() && 0 <= current < |children| && c < |children|
      ensures c != current ==> children[c] != children[current]
      ensures c != current ==> forall e :: e in children[current].run ==> e !in children[c].run
    {
      if c < current {
        assert children[c] != children[current];
      } else if current < c {
        assert children[current] != children[c];
      }
    }

    method AdvanceCurrent()
      requires CurrentHere() && AllAtOrAfter()
      modifies children[current], this`pos
      ensures Merges() && AllAtOrAfter() && pos == old(pos) + 1 <= |run|
    {
      ghost var p := pos;
      assert run[p] in children[current].run;
      label before:
      children[current].Next();
      pos := pos + 1;
      forall c | 0 <= c < |children| ensures AtOrAfter(children[c].run, run, pos, children[c].pos) {
        OnlyCurrent(c);
        StepForward(children[c].run, run, p, old@before(children[c].pos), children[c].pos);
      }
    }

    method RetreatCurrent()
      requires CurrentHere() && AllAtOrBefore(pos)
      modifies children[current]
      ensures Merges() && AllAtOrBefore(pos - 1)
    {
      assert run[pos] in children[current].run;
      label before:
      children[current].Prev();
      forall c | 0 <= c < |children| ensures AtOrBefore(children[c].run, run, pos - 1, Index(children[c])) {
        OnlyCurrent(c);
        StepBack(children[c].run, run, pos, old@before(Index(children[c])), Index(children[c]));
      }
    }
  }
}
