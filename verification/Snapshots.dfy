/** The list of live snapshots (db/snapshot.h), a ring of linked nodes around a dummy head. */
module Snapshots {
  import opened Sequences

  class SnapshotImpl {
    const number: nat
    var prev: SnapshotImpl
    var next: SnapshotImpl

    constructor (number: nat)
      ensures this.number == number && prev == this && next == this
    {
      this.number, prev, next := number, this, this;
    }
  }

  function Without<T>(s: seq<T>, i: nat): seq<T>
    requires i < |s|
  {
    s[..i] + s[i + 1..]
  }

  /** The position after `i` on a ring of `n` nodes. */
  function After(i: nat, n: nat): nat {
    if i + 1 >= n then 0 else i + 1
  }

  /** Consecutive nodes, and the last and the first, are linked in both directions. */
  ghost predicate IsRing(ring: seq<SnapshotImpl>)
    reads ring
  {
    && ring != [] && NoDuplicates(ring)
    && forall i :: 0 <= i < |ring| ==> ring[i].next == ring[After(i, |ring|)] && ring[After(i, |ring|)].prev == ring[i]
  }

  /** The node at `out` is passed over in both directions. */
  ghost predicate Skips(ring: seq<SnapshotImpl>, out: nat)
    reads ring
  {
    && 0 < out < |ring| && NoDuplicates(ring)
    && forall j :: 0 <= j < |ring| && j != out ==>
         var k := if j == out - 1 then After(out, |ring|) else After(j, |ring|);
         ring[j].next == ring[k] && ring[k].prev == ring[j]
  }

  /** The position on the ring with `out` of position `k` on the ring without it. */
  function Old(k: nat, out: nat): nat {
    if k < out then k else k + 1
  }

  lemma WithoutAt<T>(s: seq<T>, out: nat, k: nat)
    requires out < |s| && k < |s| - 1
    ensures Without(s, out)[k] == s[Old(k, out)]
  {
  }

  lemma WithoutIsDistinct<T>(s: seq<T>, out: nat)
    requires NoDuplicates(s) && out < |s|
    ensures NoDuplicates(Without(s, out))
  {
    forall j, k | 0 <= j < k < |s| - 1 ensures Without(s, out)[j] != Without(s, out)[k] {
      WithoutAt(s, out, j);
      WithoutAt(s, out, k);
    }
  }

  lemma SkippedIsRing(ring: seq<SnapshotImpl>, out: nat)
    requires Skips(ring, out)
    ensures IsRing(Without(ring, out))
  {
    var n, rest := |ring|, Without(ring, out);
    WithoutIsDistinct(ring, out);
    forall k | 0 <= k < n - 1 ensures rest[k].next == rest[After(k, n - 1)] && rest[After(k, n - 1)].prev == rest[k] {
      var j, a := Old(k, out), After(k, n - 1);
      WithoutAt(ring, out, k);
      WithoutAt(ring, out, a);
      assert Old(a, out) == if j == out - 1 then After(out, n) else After(j, n);
    }
  }

  ghost function NumbersOf(nodes: seq<SnapshotImpl>): (r: seq<nat>)
    ensures |r| == |nodes|
  {
    seq(|nodes|, i requires 0 <= i < |nodes| => nodes[i].number)
  }

  lemma NumbersWithout(nodes: seq<SnapshotImpl>, i: nat)
    requires i < |nodes|
    ensures NumbersOf(Without(nodes, i)) == Without(NumbersOf(nodes), i)
  {
  }

  lemma HeadStays<T>(head: T, rest: seq<T>, i: nat)
    requires i < |rest|
    ensures [head] + Without(rest, i) == Without([head] + rest, i + 1)
  {
  }

  class SnapshotList {
    const head: SnapshotImpl
    /** The snapshots, in the order in which they were taken. */
    ghost var nodes: seq<SnapshotImpl>

    ghost function Ring(): seq<SnapshotImpl>
      reads this
    {
      [head] + nodes
    }

    ghost predicate Valid()
      reads this, Ring()
    {
      IsRing(Ring())
    }

    ghost function Numbers(): (r: seq<nat>)
      reads this
      ensures |r| == |nodes|
    {
      NumbersOf(nodes)
    }

    constructor ()
      ensures Valid() && nodes == [] && fresh(head)
    {
      head := new SnapshotImpl(0);
      nodes := [];
    }

    method IsEmpty() returns (r: bool)
      requires Valid()
      ensures r <==> nodes == []
    {
      assert Ring()[0] == head && Ring()[After(0, |Ring()|)] == head.next;
      r := head.next == head;
    }

    method Oldest() returns (s: SnapshotImpl)
      requires Valid() && nodes != []
      ensures s == nodes[0] && s.number == Numbers()[0]
    {
      assert Ring()[0] == head && Ring()[1] == nodes[0];
      s := head.next;
    }

    method Newest() returns (s: SnapshotImpl)
      requires Valid() && nodes != []
      ensures s == nodes[|nodes| - 1] && s.number == Numbers()[|nodes| - 1]
    {
      var n := |Ring()|;
      assert After(n - 1, n) == 0 && Ring()[0] == head && Ring()[n - 1] == nodes[|nodes| - 1];
      s := head.prev;
    }

    /** The new snapshot goes to the end; the others stay as they are. */
    method New(number: nat) returns (s: SnapshotImpl)
      requires Valid()
      modifies this, Ring()
      ensures Valid() && fresh(s) && nodes == old(nodes) + [s] && Numbers() == old(Numbers()) + [number]
    {
      ghost var ring, n := Ring(), |Ring()|;
      s := new SnapshotImpl(number);
      assert After(n - 1, n) == 0 && head == ring[0] && head.prev == ring[n - 1];
      s.next := head;
      s.prev := head.prev;
      s.prev.next := s;
      s.next.prev := s;
      nodes := nodes + [s];
      assert Ring() == ring + [s];
      forall i | 0 <= i <= n
        ensures Ring()[i].next == Ring()[After(i, n + 1)] && Ring()[After(i, n + 1)].prev == Ring()[i]
      {
        if i < n - 1 {
          assert Ring()[i] == ring[i] && Ring()[i + 1] == ring[i + 1] && After(i, n) == After(i, n + 1) == i + 1;
        }
      }
    }

    /** One snapshot is unlinked; the others stay as they are. */
    method Delete(s: SnapshotImpl, ghost i: nat)
      requires Valid() && i < |nodes| && nodes[i] == s
      modifies this, Ring()
      ensures Valid() && nodes == Without(old(nodes), i) && Numbers() == Without(old(Numbers()), i)
    {
      ghost var ring, rest := Ring(), Without(nodes, i);
      HeadStays(head, nodes, i);
      NumbersWithout(nodes, i);
      Unlink(s, ring, i + 1);
      SkippedIsRing(ring, i + 1);
      nodes := rest;
    }

    /** The two stores of Delete. */
    static method Unlink(s: SnapshotImpl, ghost ring: seq<SnapshotImpl>, ghost out: nat)
      requires IsRing(ring) && 0 < out < |ring| && ring[out] == s
      modifies ring
      ensures Skips(ring, out)
    {
      ghost var n := |ring|;
      assert After(out - 1, n) == out;
      s.prev.next := s.next;
      s.next.prev := s.prev;
    }
  }
}
