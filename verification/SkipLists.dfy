/** The skip list (db/skiplist.h).  Nodes live in an arena and are named by their place in it.

    Each level is described by the set of nodes linked on it; the links of a level join them in key
    order.  A reader may run between any two stores of an insertion and may use an outdated height. */
module SkipLists {

  const MAX_HEIGHT: nat := 12
  const HEAD: nat := 0
  const NIL: int := -1

  datatype Node = Node(key: int, next: seq<int>)

  /** Node `y` comes after node `x`; the head comes before all. */
  ghost predicate After(nodes: seq<Node>, x: nat, y: nat)
    requires x < |nodes| && y < |nodes|
  {
    x == HEAD || nodes[x].key < nodes[y].key
  }

  /** These nodes reach up to level `l`. */
  ghost predicate Reach(nodes: seq<Node>, S: set<nat>, l: nat) {
    && HEAD < |nodes| && l < |nodes[HEAD].next|
    && forall x :: x in S ==> HEAD < x < |nodes| && l < |nodes[x].next|
  }

  /** `y` is the node of the level next after `x`, or NIL. */
  ghost predicate IsNext(nodes: seq<Node>, S: set<nat>, l: nat, x: nat, y: int)
    requires Reach(nodes, S, l) && (x == HEAD || x in S)
  {
    && (y == NIL || (y in S && After(nodes, x, y)))
    && forall z :: z in S && After(nodes, x, z) ==> y != NIL && nodes[y].key <= nodes[z].key
  }

  /** The links of level `l` join the nodes of `S` in key order. */
  ghost predicate Linked(nodes: seq<Node>, S: set<nat>, l: nat) {
    && Reach(nodes, S, l)
    && forall x {:trigger nodes[x].next[l]} :: x == HEAD || x in S ==> IsNext(nodes, S, l, x, nodes[x].next[l])
  }

  ghost predicate DistinctKeys(nodes: seq<Node>, S: set<nat>)
    requires forall x :: x in S ==> x < |nodes|
  {
    forall x, y :: x in S && y in S && nodes[x].key == nodes[y].key ==> x == y
  }

  /** `joined[x]` is the number of levels, from the lowest up, that node `x` has been linked on. */
  ghost function Level(joined: seq<nat>, l: nat): (r: set<nat>)
    ensures forall x :: x in r <==> HEAD < x < |joined| && l < joined[x]
  {
    set x | HEAD < x < |joined| && l < joined[x]
  }

  ghost predicate IsSkipList(nodes: seq<Node>, joined: seq<nat>) {
    && |joined| == |nodes|
    && (forall l :: 0 <= l < MAX_HEIGHT ==> Linked(nodes, Level(joined, l), l))
    && DistinctKeys(nodes, Level(joined, 0))
  }

  // ---------------------------------------------------------------- searching

  /** `x` is a node of the level before the key, or the head. */
  ghost predicate Before(nodes: seq<Node>, S: set<nat>, l: nat, x: nat, key: int)
    requires Reach(nodes, S, l)
  {
    x == HEAD || (x in S && nodes[x].key < key)
  }

  /** `x` is the last such node. */
  ghost predicate IsPrev(nodes: seq<Node>, S: set<nat>, l: nat, x: nat, key: int)
    requires Reach(nodes, S, l)
  {
    && Before(nodes, S, l, x, key)
    && forall z :: z in S && nodes[z].key < key ==> x != HEAD && nodes[z].key <= nodes[x].key
  }

  /** `y` is the first node of level 0 at or after the key, or NIL. */
  ghost predicate IsCeiling(nodes: seq<Node>, S: set<nat>, key: int, y: int)
    requires Reach(nodes, S, 0)
  {
    && (y == NIL || (y in S && key <= nodes[y].key))
    && forall z :: z in S && key <= nodes[z].key ==> y != NIL && nodes[y].key <= nodes[z].key
  }

  /** What one read tells a search: it goes on, or stands at the last node before the key. */
  lemma ReadLink(nodes: seq<Node>, S: set<nat>, l: nat, x: nat, key: int)
    requires Linked(nodes, S, l) && Before(nodes, S, l, x, key)
    ensures var y := nodes[x].next[l];
            if y != NIL && nodes[y].key < key then y in S && After(nodes, x, y) && Before(nodes, S, l, y, key)
            else IsPrev(nodes, S, l, x, key)
  {
    assert IsNext(nodes, S, l, x, nodes[x].next[l]);
  }

  lemma PrevGivesCeiling(nodes: seq<Node>, S: set<nat>, x: nat, key: int)
    requires Linked(nodes, S, 0) && IsPrev(nodes, S, 0, x, key)
    ensures IsCeiling(nodes, S, key, nodes[x].next[0])
  {
    assert IsNext(nodes, S, 0, x, nodes[x].next[0]);
  }

  /** The nodes of a level that lie ahead. */
  ghost function Ahead(nodes: seq<Node>, S: set<nat>, l: nat, x: nat): set<nat>
    requires Reach(nodes, S, l) && x < |nodes|
  {
    set z | z in S && After(nodes, x, z)
  }

  lemma FewerAhead(nodes: seq<Node>, S: set<nat>, l: nat, x: nat, y: nat)
    requires Reach(nodes, S, l) && (x == HEAD || x in S) && y in S && After(nodes, x, y)
    ensures Ahead(nodes, S, l, y) < Ahead(nodes, S, l, x)
  {
    assert y in Ahead(nodes, S, l, x) && y !in Ahead(nodes, S, l, y);
  }

  // ---------------------------------------------------------------- inserting

  /** What an insertion may do to nodes and levels: nothing is unlinked and no key changes. */
  ghost predicate Grows(nodes: seq<Node>, joined: seq<nat>, nodes': seq<Node>, joined': seq<nat>) {
    && |nodes| == |joined| <= |nodes'| == |joined'|
    && forall x :: 0 <= x < |nodes| ==> nodes'[x].key == nodes[x].key && joined[x] <= joined'[x]
  }

  /** A reader in the middle of a search is not disturbed by an insertion, on its level or below. */
  lemma ReaderGoesOn(nodes: seq<Node>, joined: seq<nat>, nodes': seq<Node>, joined': seq<nat>,
                     x: nat, l: nat, m: nat, key: int)
    requires IsSkipList(nodes, joined) && IsSkipList(nodes', joined') && Grows(nodes, joined, nodes', joined')
    requires m <= l < MAX_HEIGHT && Before(nodes, Level(joined, l), l, x, key)
    ensures Before(nodes', Level(joined', m), m, x, key)
  {
  }

  /** A search interrupted by insertions goes on with the list as it has become: its next read leads to
      a later node before the key, or down a level, or to the answer for the list at that moment. */
  lemma InterruptedSearch(nodes: seq<Node>, joined: seq<nat>, nodes': seq<Node>, joined': seq<nat>, x: nat, l: nat,
                          key: int)
    requires IsSkipList(nodes, joined) && IsSkipList(nodes', joined') && Grows(nodes, joined, nodes', joined')
    requires l < MAX_HEIGHT && Before(nodes, Level(joined, l), l, x, key)
    ensures Before(nodes', Level(joined', l), l, x, key)
    ensures var y := nodes'[x].next[l];
            if y != NIL && nodes'[y].key < key then
              Before(nodes', Level(joined', l), l, y, key) && After(nodes', x, y)
            else if l > 0 then Before(nodes', Level(joined', l - 1), l - 1, x, key)
            else IsCeiling(nodes', Level(joined', 0), key, y)
  {
    ReaderGoesOn(nodes, joined, nodes', joined', x, l, l, key);
    ReadLink(nodes', Level(joined', l), l, x, key);
    if l > 0 {
      ReaderGoesOn(nodes, joined, nodes', joined', x, l, l - 1, key);
    } else if nodes'[x].next[0] == NIL || nodes'[nodes'[x].next[0]].key >= key {
      PrevGivesCeiling(nodes', Level(joined', 0), x, key);
    }
  }

  function SetLink(nodes: seq<Node>, x: nat, l: nat, y: int): (r: seq<Node>)
    requires x < |nodes| && l < |nodes[x].next|
    ensures |r| == |nodes| && forall z :: 0 <= z < |nodes| ==>
              r[z].key == nodes[z].key && |r[z].next| == |nodes[z].next|
    ensures forall z, m :: 0 <= z < |nodes| && 0 <= m < |nodes[z].next| ==>
              r[z].next[m] == if z == x && m == l then y else nodes[z].next[m]
  {
    nodes[x := nodes[x].(next := nodes[x].next[l := y])]
  }

  /** Links that do not belong to the level do not matter to it. */
  lemma OtherLevel(nodes: seq<Node>, nodes': seq<Node>, S: set<nat>, l: nat)
    requires Linked(nodes, S, l) && |nodes| <= |nodes'|
    requires forall z :: z == HEAD || z in S ==>
               nodes'[z].key == nodes[z].key && l < |nodes'[z].next| && nodes'[z].next[l] == nodes[z].next[l]
    ensures Linked(nodes', S, l)
  {
    forall x | x == HEAD || x in S ensures IsNext(nodes', S, l, x, nodes'[x].next[l]) {
      assert IsNext(nodes, S, l, x, nodes[x].next[l]);
    }
  }

  /** A level with one more node, once the links are set. */
  ghost predicate NewNode(nodes: seq<Node>, S: set<nat>, l: nat, p: nat, x: nat) {
    && Linked(nodes, S, l) && DistinctKeys(nodes, S)
    && HEAD < x < |nodes| && x !in S && l < |nodes[x].next|
    && IsPrev(nodes, S, l, p, nodes[x].key) && forall z :: z in S ==> nodes[z].key != nodes[x].key
  }

  lemma NextOfNew(nodes: seq<Node>, S: set<nat>, l: nat, p: nat, x: nat)
    requires NewNode(nodes, S, l, p, x)
    ensures Reach(nodes, S + {x}, l) && IsNext(nodes, S + {x}, l, x, nodes[p].next[l])
  {
    assert IsNext(nodes, S, l, p, nodes[p].next[l]);
  }

  lemma NextOfPrev(nodes: seq<Node>, S: set<nat>, l: nat, p: nat, x: nat)
    requires NewNode(nodes, S, l, p, x)
    ensures Reach(nodes, S + {x}, l) && IsNext(nodes, S + {x}, l, p, x)
  {
    assert IsNext(nodes, S, l, p, nodes[p].next[l]);
  }

  lemma NextOfOther(nodes: seq<Node>, S: set<nat>, l: nat, p: nat, x: nat, w: nat)
    requires NewNode(nodes, S, l, p, x) && (w == HEAD || w in S) && w != p
    ensures Reach(nodes, S + {x}, l) && IsNext(nodes, S + {x}, l, w, nodes[w].next[l])
  {
    assert IsNext(nodes, S, l, w, nodes[w].next[l]);
    if After(nodes, w, x) {
      assert p in S && After(nodes, w, p);
    }
  }

  /** Whether a node is next depends on keys only. */
  lemma SameKeys(nodes: seq<Node>, nodes': seq<Node>, S: set<nat>, l: nat, x: nat, y: int)
    requires Reach(nodes, S, l) && Reach(nodes', S, l) && (x == HEAD || x in S) && IsNext(nodes, S, l, x, y)
    requires forall z :: z == HEAD || z in S ==> nodes'[z].key == nodes[z].key
    ensures IsNext(nodes', S, l, x, y)
  {
  }

  /** Linking a node, which points to its successor already, on one level. */
  lemma LinkIn(nodes: seq<Node>, S: set<nat>, l: nat, p: nat, x: nat)
    requires NewNode(nodes, S, l, p, x) && nodes[x].next[l] == nodes[p].next[l]
    ensures Linked(SetLink(nodes, p, l, x), S + {x}, l)
  {
    var nodes' := SetLink(nodes, p, l, x);
    assert Reach(nodes', S + {x}, l);
    forall w | w == HEAD || w in S + {x} ensures IsNext(nodes', S + {x}, l, w, nodes'[w].next[l]) {
      if w == x {
        NextOfNew(nodes, S, l, p, x);
      } else if w == p {
        NextOfPrev(nodes, S, l, p, x);
      } else {
        NextOfOther(nodes, S, l, p, x, w);
      }
      SameKeys(nodes, nodes', S + {x}, l, w, nodes'[w].next[l]);
    }
  }

  /** A node linked below level `l` joins level `l`. */
  lemma JoinLevel(joined: seq<nat>, x: nat, l: nat, m: nat)
    requires HEAD < x < |joined| && joined[x] == l
    ensures Level(joined[x := l + 1], m) == if m == l then Level(joined, l) + {x} else Level(joined, m)
  {
  }

  lemma JoinedDistinct(nodes: seq<Node>, S: set<nat>, x: nat)
    requires (forall z :: z in S ==> z < |nodes|) && x < |nodes| && DistinctKeys(nodes, S)
    requires forall z :: z in S && nodes[z].key == nodes[x].key ==> z == x
    ensures DistinctKeys(nodes, S + {x})
  {
  }

  /** Nodes that differ in their links only. */
  ghost predicate SameNodes(nodes: seq<Node>, nodes': seq<Node>) {
    && |nodes| == |nodes'|
    && forall z :: 0 <= z < |nodes| ==> nodes'[z].key == nodes[z].key && |nodes'[z].next| == |nodes[z].next|
  }

  lemma KeysOnly(nodes: seq<Node>, nodes': seq<Node>, S: set<nat>)
    requires (forall z :: z in S ==> z < |nodes|) && |nodes| <= |nodes'|
    requires forall z :: 0 <= z < |nodes| ==> nodes'[z].key == nodes[z].key
    requires DistinctKeys(nodes, S)
    ensures DistinctKeys(nodes', S)
  {
  }

  /** A node that has been allocated and linked below level `i`, and the place for it on that level. */
  ghost predicate Ready(nodes: seq<Node>, joined: seq<nat>, i: nat, p: nat, x: nat) {
    && IsSkipList(nodes, joined) && i < MAX_HEIGHT && HEAD < x < |nodes| && joined[x] == i < |nodes[x].next|
    && (forall z :: z in Level(joined, 0) && nodes[z].key == nodes[x].key ==> z == x)
    && IsPrev(nodes, Level(joined, i), i, p, nodes[x].key)
  }

  lemma ReadyIsNew(nodes: seq<Node>, joined: seq<nat>, i: nat, p: nat, x: nat)
    requires Ready(nodes, joined, i, p, x)
    ensures NewNode(nodes, Level(joined, i), i, p, x)
  {
    assert Level(joined, i) <= Level(joined, 0);
  }

  lemma InsertedKey(nodes: seq<Node>, joined: seq<nat>, nodes': seq<Node>, joined': seq<nat>, key: int, height: nat)
    requires |nodes| == |joined| && |nodes| > 0 && height > 0 && joined' == (joined + [0])[|nodes| := height]
    requires SameNodes(nodes + [Node(key, seq(height, _ => NIL))], nodes')
    ensures Grows(nodes, joined, nodes', joined')
    ensures (set z | z in Level(joined', 0) :: nodes'[z].key) == (set z | z in Level(joined, 0) :: nodes[z].key) + {key}
  {
    var keys := set z | z in Level(joined, 0) :: nodes[z].key;
    var keys' := set z | z in Level(joined', 0) :: nodes'[z].key;
    forall k | k in keys ensures k in keys' {
      var z :| z in Level(joined, 0) && nodes[z].key == k;
      assert z in Level(joined', 0) && nodes'[z].key == k;
    }
    assert |nodes| in Level(joined', 0) && nodes'[|nodes|].key == key;
  }

  /** The first store: the new node, unreachable on this level so far, gets its successor. */
  lemma PointingKeeps(nodes: seq<Node>, joined: seq<nat>, i: nat, x: nat, y: int)
    requires IsSkipList(nodes, joined) && HEAD < x < |nodes| && joined[x] == i < |nodes[x].next|
    ensures IsSkipList(SetLink(nodes, x, i, y), joined)
  {
    forall l | 0 <= l < MAX_HEIGHT ensures Linked(SetLink(nodes, x, i, y), Level(joined, l), l) {
      OtherLevel(nodes, SetLink(nodes, x, i, y), Level(joined, l), l);
    }
    KeysOnly(nodes, SetLink(nodes, x, i, y), Level(joined, 0));
  }

  /** The second store: its predecessor points to it. */
  lemma PublishingKeeps(nodes: seq<Node>, joined: seq<nat>, i: nat, p: nat, x: nat)
    requires Ready(nodes, joined, i, p, x) && nodes[x].next[i] == nodes[p].next[i]
    ensures IsSkipList(SetLink(nodes, p, i, x), joined[x := i + 1])
  {
    var nodes' := SetLink(nodes, p, i, x);
    ReadyIsNew(nodes, joined, i, p, x);
    var joined' := joined[x := i + 1];
    forall l | 0 <= l < MAX_HEIGHT ensures Linked(nodes', Level(joined', l), l) {
      JoinLevel(joined, x, i, l);
      if l == i {
        LinkIn(nodes, Level(joined, i), i, p, x);
      } else {
        OtherLevel(nodes, nodes', Level(joined, l), l);
      }
    }
    JoinLevel(joined, x, i, 0);
    JoinedDistinct(nodes, Level(joined, 0), x);
    KeysOnly(nodes, nodes', Level(joined[x := i + 1], 0));
  }

  /** Linking a node on one level does not move its place on the levels above. */
  lemma PlaceAbove(nodes: seq<Node>, joined: seq<nat>, nodes': seq<Node>, x: nat, i: nat, l: nat, p: nat)
    requires IsSkipList(nodes, joined) && HEAD < x < |nodes| && joined[x] == i < l < MAX_HEIGHT
    requires IsSkipList(nodes', joined[x := i + 1]) && SameNodes(nodes, nodes')
    requires IsPrev(nodes, Level(joined, l), l, p, nodes[x].key)
    ensures IsPrev(nodes', Level(joined[x := i + 1], l), l, p, nodes'[x].key)
  {
    JoinLevel(joined, x, i, l);
  }

  /** The last nodes before the key on the levels from `lo` on. */
  ghost predicate Predecessors(nodes: seq<Node>, joined: seq<nat>, key: int, prev: seq<nat>, lo: nat) {
    && IsSkipList(nodes, joined) && lo + |prev| <= MAX_HEIGHT
    && forall k :: 0 <= k < |prev| ==> IsPrev(nodes, Level(joined, lo + k), lo + k, prev[k], key)
  }

  lemma OnePredecessor(nodes: seq<Node>, joined: seq<nat>, key: int, prev: seq<nat>, l: nat, x: nat)
    requires Predecessors(nodes, joined, key, prev, l + 1) && IsPrev(nodes, Level(joined, l), l, x, key)
    ensures Predecessors(nodes, joined, key, [x] + prev, l)
  {
    var all := [x] + prev;
    forall k | 0 <= k < |all| ensures IsPrev(nodes, Level(joined, l + k), l + k, all[k], key) {
      if k > 0 {
        assert all[k] == prev[k - 1] && l + k == l + 1 + (k - 1);
      }
    }
  }

  /** A node linked on the levels below `i`, and its places on those that remain. */
  ghost predicate Pending(nodes: seq<Node>, joined: seq<nat>, i: nat, x: nat, prev: seq<nat>) {
    && IsSkipList(nodes, joined) && HEAD < x < |nodes| && joined[x] == i <= |prev| == |nodes[x].next| <= MAX_HEIGHT
    && (forall z :: z in Level(joined, 0) && nodes[z].key == nodes[x].key ==> z == x)
    && Predecessors(nodes, joined, nodes[x].key, prev[i..], i)
  }

  lemma PendingIsReady(nodes: seq<Node>, joined: seq<nat>, i: nat, x: nat, prev: seq<nat>)
    requires Pending(nodes, joined, i, x, prev) && i < |prev|
    ensures Ready(nodes, joined, i, prev[i], x)
  {
  }

  lemma StillPending(nodes: seq<Node>, joined: seq<nat>, nodes': seq<Node>, i: nat, x: nat, prev: seq<nat>)
    requires Pending(nodes, joined, i, x, prev) && i < |prev|
    requires IsSkipList(nodes', joined[x := i + 1]) && SameNodes(nodes, nodes')
    ensures Pending(nodes', joined[x := i + 1], i + 1, x, prev)
  {
    var joined' := joined[x := i + 1];
    forall l | i + 1 <= l < |prev| ensures IsPrev(nodes', Level(joined', l), l, prev[l], nodes'[x].key) {
      assert prev[l] == prev[i..][l - i];
      PlaceAbove(nodes, joined, nodes', x, i, l, prev[l]);
    }
    JoinLevel(joined, x, i, 0);
  }

  lemma AllocatingKeeps(nodes: seq<Node>, joined: seq<nat>, key: int, height: nat, prev: seq<nat>)
    requires IsSkipList(nodes, joined) && |prev| == height <= MAX_HEIGHT
    requires forall z :: z in Level(joined, 0) ==> nodes[z].key != key
    requires Predecessors(nodes, joined, key, prev, 0)
    ensures var nodes' := nodes + [Node(key, seq(height, _ => NIL))];
            Pending(nodes', joined + [0], 0, |nodes|, prev)
            && forall l :: 0 <= l < MAX_HEIGHT ==> Level(joined + [0], l) == Level(joined, l)
  {
    var nodes' := nodes + [Node(key, seq(height, _ => NIL))];
    forall l | 0 <= l < MAX_HEIGHT
      ensures Level(joined + [0], l) == Level(joined, l) && Linked(nodes', Level(joined, l), l)
    {
      OtherLevel(nodes, nodes', Level(joined, l), l);
    }
    KeysOnly(nodes, nodes', Level(joined, 0));
    forall l | 0 <= l < height ensures IsPrev(nodes', Level(joined, l), l, prev[l], key) {
      assert IsPrev(nodes, Level(joined, l), l, prev[l], key);
    }
  }

  // ----------------------------------------------------------------- the list

  class SkipList {
    var nodes: seq<Node>
    var maxHeight: nat
    ghost var joined: seq<nat>

    ghost predicate Valid()
      reads this
    {
      && IsSkipList(nodes, joined) && 1 <= maxHeight <= MAX_HEIGHT
      && forall l :: maxHeight <= l < MAX_HEIGHT ==> Level(joined, l) == {}
    }

    /** The keys inserted. */
    ghost function Keys(): set<int>
      requires Valid()
      reads this
    {
      set x | x in Level(joined, 0) :: nodes[x].key
    }

    constructor ()
      ensures Valid() && Keys() == {}
    {
      nodes := [Node(0, seq(MAX_HEIGHT, _ => NIL))];
      maxHeight := 1;
      joined := [0];
    }

    /** The first node at or after the key, and for every level below `height` the last node before it.
        A reader's `height` may be outdated. */
    method FindGreaterOrEqual(key: int, height: nat) returns (y: int, prev: seq<nat>)
      requires Valid() && 1 <= height <= MAX_HEIGHT
      ensures IsCeiling(nodes, Level(joined, 0), key, y)
      ensures |prev| == height && Predecessors(nodes, joined, key, prev, 0)
    {
      var x: nat, level := HEAD, height - 1;
      prev := [];
      while true
        invariant 0 <= level < height && Before(nodes, Level(joined, level), level, x, key)
        invariant |prev| == height - 1 - level && Predecessors(nodes, joined, key, prev, level + 1)
        decreases level, Ahead(nodes, Level(joined, level), level, x)
      {
        ReadLink(nodes, Level(joined, level), level, x, key);
        var next := nodes[x].next[level];
        if next != NIL && nodes[next].key < key {
          FewerAhead(nodes, Level(joined, level), level, x, next);
          x := next;
        } else {
          OnePredecessor(nodes, joined, key, prev, level, x);
          prev := [x] + prev;
          if level == 0 {
            PrevGivesCeiling(nodes, Level(joined, 0), x, key);
            return next, prev;
          }
          level := level - 1;
        }
      }
    }

    /** The last node before the key, or the head. */
    method FindLessThan(key: int, height: nat) returns (x: nat)
      requires Valid() && 1 <= height <= MAX_HEIGHT
      ensures IsPrev(nodes, Level(joined, 0), 0, x, key)
    {
      var level := height - 1;
      x := HEAD;
      while true
        invariant 0 <= level < height && Before(nodes, Level(joined, level), level, x, key)
        decreases level, Ahead(nodes, Level(joined, level), level, x)
      {
        ReadLink(nodes, Level(joined, level), level, x, key);
        var next := nodes[x].next[level];
        if next == NIL || nodes[next].key >= key {
          if level == 0 {
            return;
          }
          level := level - 1;
        } else {
          FewerAhead(nodes, Level(joined, level), level, x, next);
          x := next;
        }
      }
    }

    /** The last node, or the head. */
    method FindLast(height: nat) returns (x: nat)
      requires Valid() && 1 <= height <= MAX_HEIGHT
      ensures x == HEAD || x in Level(joined, 0)
      ensures forall z :: z in Level(joined, 0) ==> x != HEAD && nodes[z].key <= nodes[x].key
    {
      var level := height - 1;
      x := HEAD;
      while true
        invariant 0 <= level < height && (x == HEAD || x in Level(joined, level))
        decreases level, Ahead(nodes, Level(joined, level), level, x)
      {
        assert IsNext(nodes, Level(joined, level), level, x, nodes[x].next[level]);
        var next := nodes[x].next[level];
        if next == NIL {
          if level == 0 {
            return;
          }
          level := level - 1;
        } else {
          FewerAhead(nodes, Level(joined, level), level, x, next);
          x := next;
        }
      }
    }

    method Contains(key: int, height: nat) returns (r: bool)
      requires Valid() && 1 <= height <= MAX_HEIGHT
      ensures r <==> key in Keys()
    {
      var x, _ := FindGreaterOrEqual(key, height);
      r := x != NIL && nodes[x].key == key;
    }

    /** Inserts a key.  The list is valid between all stores, so a reader may run at any time. */
    method Insert(key: int, height: nat)
      requires Valid() && key !in Keys() && 1 <= height <= MAX_HEIGHT
      modifies this
      ensures Valid() && Keys() == old(Keys()) + {key}
      ensures Grows(old(nodes), old(joined), nodes, joined)
    {
      var prev := FindPredecessors(key, height);
      var x := |nodes|;
      Allocate(key, height, prev);
      LinkAll(x, height, prev);
      InsertedKey(old(nodes), old(joined), nodes, joined, key, height);
    }

    /** The predecessors of a key on the levels it is to be linked on. */
    method FindPredecessors(key: int, height: nat) returns (prev: seq<nat>)
      requires Valid() && 1 <= height <= MAX_HEIGHT
      modifies this`maxHeight
      ensures Valid() && height <= maxHeight && |prev| == height && Predecessors(nodes, joined, key, prev, 0)
    {
      var y;
      y, prev := FindGreaterOrEqual(key, maxHeight);
      if height > maxHeight {
        for i := maxHeight to height
          invariant |prev| == i && Predecessors(nodes, joined, key, prev, 0)
        {
          prev := prev + [HEAD];
        }
        maxHeight := height;
      } else {
        prev := prev[..height];
      }
    }

    /** A new node, not yet linked. */
    method Allocate(key: int, height: nat, ghost prev: seq<nat>)
      requires Valid() && key !in Keys() && |prev| == height <= maxHeight
      requires Predecessors(nodes, joined, key, prev, 0)
      modifies this`nodes, this`joined
      ensures Valid() && Pending(nodes, joined, 0, |old(nodes)|, prev)
      ensures nodes == old(nodes) + [Node(key, seq(height, _ => NIL))] && joined == old(joined) + [0]
    {
      AllocatingKeeps(nodes, joined, key, height, prev);
      nodes := nodes + [Node(key, seq(height, _ => NIL))];
      joined := joined + [0];
    }

    /** The loop of Insert. */
    method LinkAll(x: nat, height: nat, prev: seq<nat>)
      requires Valid() && Pending(nodes, joined, 0, x, prev) && |prev| == height <= maxHeight
      modifies this`nodes, this`joined
      ensures Valid() && joined == old(joined)[x := height] && SameNodes(old(nodes), nodes)
    {
      for i := 0 to height
        invariant Valid() && Pending(nodes, joined, i, x, prev)
        invariant joined == old(joined)[x := i] && SameNodes(old(nodes), nodes)
      {
        ghost var nodes0, joined0 := nodes, joined;
        PendingIsReady(nodes, joined, i, x, prev);
        LinkLevel(i, x, prev[i]);
        StillPending(nodes0, joined0, nodes, i, x, prev);
      }
    }

    /** The two stores that link a node on one level. */
    method LinkLevel(i: nat, x: nat, p: nat)
      requires Valid() && Ready(nodes, joined, i, p, x) && i < maxHeight
      modifies this`nodes, this`joined
      ensures Valid() && SameNodes(old(nodes), nodes) && joined == old(joined)[x := i + 1]
    {
      PointAhead(i, x, p);
      Publish(i, x, p);
    }

    method PointAhead(i: nat, x: nat, p: nat)
      requires Valid() && Ready(nodes, joined, i, p, x)
      modifies this`nodes
      ensures Valid() && SameNodes(old(nodes), nodes)
      ensures Ready(nodes, joined, i, p, x) && nodes[x].next[i] == nodes[p].next[i]
    {
      ReadyIsNew(nodes, joined, i, p, x);
      PointingKeeps(nodes, joined, i, x, nodes[p].next[i]);
      nodes := SetLink(nodes, x, i, nodes[p].next[i]);
    }

    method Publish(i: nat, x: nat, p: nat)
      requires Valid() && Ready(nodes, joined, i, p, x) && i < maxHeight && nodes[x].next[i] == nodes[p].next[i]
      modifies this`nodes, this`joined
      ensures Valid() && SameNodes(old(nodes), nodes) && joined == old(joined)[x := i + 1]
    {
      PublishingKeeps(nodes, joined, i, p, x);
      ghost var joined' := joined[x := i + 1];
      forall l | maxHeight <= l < MAX_HEIGHT ensures Level(joined', l) == {} {
        JoinLevel(joined, x, i, l);
      }
      nodes := SetLink(nodes, p, i, x);
      joined := joined[x := i + 1];
    }
  }

  // ------------------------------------------------------------- the iterator

  class Iterator {
    const list: SkipList
    var node: int                 // NIL when the iterator is not valid

    ghost predicate Ok()
      reads this, list
    {
      list.Valid() && (node == NIL || node in Level(list.joined, 0))
    }

    constructor (list: SkipList)
      requires list.Valid()
      ensures Ok() && !Valid() && this.list == list
    {
      this.list := list;
      node := NIL;
    }

    predicate Valid()
      reads this
    {
      node != NIL
    }

    function Key(): int
      requires Ok() && Valid()
      reads this, list
    {
      list.nodes[node].key
    }

    /** The iterator stands at the least key above `low`, or at `low` itself if it is not strict. */
    ghost predicate AtLeast(low: int, strict: bool)
      requires Ok()
      reads this, list
    {
      && (Valid() ==> Key() in list.Keys() && low <= Key() && (strict ==> low < Key()))
      && forall k :: k in list.Keys() && low <= k && (strict ==> low < k) ==> Valid() && Key() <= k
    }

    /** The iterator stands at the greatest key below `high`. */
    ghost predicate AtMost(high: int)
      requires Ok()
      reads this, list
    {
      && (Valid() ==> Key() in list.Keys() && Key() < high)
      && forall k :: k in list.Keys() && k < high ==> Valid() && k <= Key()
    }

    method Next()
      requires Ok() && Valid()
      modifies this
      ensures Ok() && AtLeast(old(Key()), true)
    {
      assert IsNext(list.nodes, Level(list.joined, 0), 0, node, list.nodes[node].next[0]);
      node := list.nodes[node].next[0];
    }

    /** There are no backward links: the last node before the key is searched for. */
    method Prev(height: nat)
      requires Ok() && Valid() && 1 <= height <= MAX_HEIGHT
      modifies this
      ensures Ok() && AtMost(old(Key()))
    {
      var x := list.FindLessThan(Key(), height);
      node := if x == HEAD then NIL else x;
    }

    method Seek(target: int, height: nat)
      requires Ok() && 1 <= height <= MAX_HEIGHT
      modifies this
      ensures Ok() && AtLeast(target, false)
    {
      var y, _ := list.FindGreaterOrEqual(target, height);
      node := y;
    }

    method SeekToFirst()
      requires Ok()
      modifies this
      ensures Ok() && (Valid() ==> Key() in list.Keys()) && forall k :: k in list.Keys() ==> Valid() && Key() <= k
    {
      assert IsNext(list.nodes, Level(list.joined, 0), 0, HEAD, list.nodes[HEAD].next[0]);
      node := list.nodes[HEAD].next[0];
    }

    method SeekToLast(height: nat)
      requires Ok() && 1 <= height <= MAX_HEIGHT
      modifies this
      ensures Ok() && (Valid() ==> Key() in list.Keys()) && forall k :: k in list.Keys() ==> Valid() && k <= Key()
    {
      var x := list.FindLast(height);
      node := if x == HEAD then NIL else x;
    }
  }
}
