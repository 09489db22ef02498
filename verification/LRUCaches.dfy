/** A shard of the cache (util/cache.cc, LRUCache): reference counts, two lists, and eviction.

    Entries are named by numbers.  The lists are sequences of names, oldest first. */
module LRUCaches {
  import opened Wrappers
  import opened Sequences
  import opened HandleTables

  datatype Handle = Handle(key: Key, value: int, charge: nat, inCache: bool, refs: nat)

  type Handles = map<nat, Handle>

  /** Takes a name out of a list. */
  function Remove(list: seq<nat>, id: nat): seq<nat> {
    if list == [] then [] else if list[0] == id then list[1..] else [list[0]] + Remove(list[1..], id)
  }

  function Sum(handles: Handles, list: seq<nat>): nat {
    if list == [] then 0
    else (if list[0] in handles then handles[list[0]].charge else 0) + Sum(handles, list[1..])
  }

  // ---------------------------------------------------------------- invariant

  /** Cached entries are in one of the lists: in the first without clients, in the second with some. */
  ghost predicate Listed(handles: Handles, lru: seq<nat>, inUse: seq<nat>) {
    && NoDuplicates(lru) && NoDuplicates(inUse)
    && (forall id: nat :: id in lru <==> id in handles && handles[id].inCache && handles[id].refs == 1)
    && (forall id: nat :: id in inUse <==> id in handles && handles[id].inCache && handles[id].refs >= 2)
  }

  /** References are clients' handles, and one of the cache; entry `extra` has one more for a moment. */
  ghost predicate Counted(handles: Handles, clients: multiset<nat>, extra: int) {
    && (forall id: nat :: id in handles ==>
          && handles[id].refs == clients[id] + (if handles[id].inCache then 1 else 0) + (if id == extra then 1 else 0)
          && handles[id].refs >= 1)
    && (forall id: nat :: id in clients ==> id in handles)
  }

  /** Every entry ever made is live or was deleted, once. */
  ghost predicate Disposed(handles: Handles, nextId: nat, deleted: seq<nat>) {
    && NoDuplicates(deleted) && (forall id: nat :: id in handles ==> id < nextId)
    && (forall id: nat :: id in deleted <==> id < nextId && id !in handles)
  }

  ghost predicate Weighed(handles: Handles, lru: seq<nat>, inUse: seq<nat>, usage: int) {
    usage == Sum(handles, lru) + Sum(handles, inUse)
  }

  /** The table finds the cached entries, but for one that is being taken out. */
  ghost predicate Indexed(handles: Handles, contents: map<Key, nat>, gone: int) {
    && (forall id: nat :: id in handles && handles[id].inCache && id != gone ==>
          handles[id].key in contents && contents[handles[id].key] == id)
    && (forall k :: k in contents ==>
          contents[k] != gone && contents[k] in handles && handles[contents[k]].inCache
            && handles[contents[k]].key == k)
  }

  // -------------------------------------------------------------------- lists

  lemma {:induction false} RemoveElement(list: seq<nat>, id: nat)
    requires NoDuplicates(list)
    ensures NoDuplicates(Remove(list, id)) && forall x :: x in Remove(list, id) <==> x in list && x != id
  {
    if list != [] {
      forall i, j | 0 <= i < j < |list[1..]| ensures list[1..][i] != list[1..][j] {}
      if list[0] == id {
        forall x | x in list[1..] ensures x != id {}
      } else {
        RemoveElement(list[1..], id);
        var rest := Remove(list[1..], id);
        assert list[0] !in list[1..];
      }
      assert list == [list[0]] + list[1..];
    }
  }

  lemma {:induction false} RemoveSum(handles: Handles, list: seq<nat>, id: nat)
    requires id in handles
    ensures Sum(handles, Remove(list, id)) == Sum(handles, list) - (if id in list then handles[id].charge else 0)
  {
    if list != [] && list[0] != id {
      RemoveSum(handles, list[1..], id);
      assert Remove(list, id)[1..] == Remove(list[1..], id);
    }
  }

  lemma {:induction false} AppendSum(handles: Handles, list: seq<nat>, id: nat)
    requires id in handles
    ensures Sum(handles, list + [id]) == Sum(handles, list) + handles[id].charge
  {
    if list != [] {
      AppendSum(handles, list[1..], id);
      assert (list + [id])[1..] == list[1..] + [id];
    }
  }

  lemma {:induction false} SameSum(handles: Handles, handles': Handles, list: seq<nat>)
    requires forall id :: id in list ==> id in handles && id in handles' && handles[id].charge == handles'[id].charge
    ensures Sum(handles, list) == Sum(handles', list)
  {
    if list != [] {
      SameSum(handles, handles', list[1..]);
    }
  }

  lemma AppendElement(list: seq<nat>, id: nat)
    requires NoDuplicates(list) && id !in list
    ensures NoDuplicates(list + [id]) && forall x :: x in list + [id] <==> x in list || x == id
  {
  }

  lemma {:induction false} RemoveAbsent(list: seq<nat>, id: nat)
    requires id !in list
    ensures Remove(list, id) == list
  {
    if list != [] {
      RemoveAbsent(list[1..], id);
    }
  }

  /** A list with or without an entry. */
  function Place(list: seq<nat>, id: nat, b: bool): seq<nat> {
    if !b then Remove(list, id) else if id in list then list else list + [id]
  }

  /** Two sets of entries that differ at one entry at most. */
  ghost predicate DifferAt(handles: Handles, handles': Handles, id: nat) {
    forall x :: x != id ==> (x in handles <==> x in handles') && (x in handles ==> handles[x] == handles'[x])
  }

  lemma PlaceElement(list: seq<nat>, id: nat, b: bool)
    requires NoDuplicates(list)
    ensures NoDuplicates(Place(list, id, b))
    ensures forall x :: x in Place(list, id, b) <==> if x == id then b else x in list
  {
    RemoveElement(list, id);
    if b && id !in list { AppendElement(list, id); }
  }

  lemma PlaceSum(handles: Handles, handles': Handles, list: seq<nat>, id: nat, b: bool)
    requires NoDuplicates(list) && DifferAt(handles, handles', id) && forall x :: x in list ==> x in handles
    requires b ==> id in handles'
    ensures Sum(handles', Place(list, id, b))
         == Sum(handles, list) - (if id in list then handles[id].charge else 0) + (if b then handles'[id].charge else 0)
  {
    var rest := Remove(list, id);
    RemoveElement(list, id);
    SameSum(handles, handles', rest);
    if id in list {
      RemoveSum(handles, list, id);
      if b { RemoveSum(handles', list, id); }
    } else {
      RemoveAbsent(list, id);
      if b { AppendSum(handles', list, id); }
    }
  }

  predicate OnLru(handles: Handles, id: nat) {
    id in handles && handles[id].inCache && handles[id].refs == 1
  }

  /** The entry is cached and one client has it: when the client gives it back it is the newest on the list. */
  predicate LastClient(handles: Handles, id: nat) {
    id in handles && handles[id].inCache && handles[id].refs == 2
  }

  predicate OnInUse(handles: Handles, id: nat) {
    id in handles && handles[id].inCache && handles[id].refs >= 2
  }

  /** The charge of an entry that is in the cache. */
  function Weight(handles: Handles, id: nat): nat {
    if id in handles && handles[id].inCache then handles[id].charge else 0
  }

  /** After one entry has changed, and moved to the list where it belongs, the lists are right again. */
  lemma Relist(handles: Handles, handles': Handles, lru: seq<nat>, inUse: seq<nat>, usage: int, id: nat)
    requires Listed(handles, lru, inUse) && Weighed(handles, lru, inUse, usage) && DifferAt(handles, handles', id)
    requires id in handles ==> handles[id].refs >= 1
    requires id in handles' ==> handles'[id].refs >= 1
    ensures var lru', inUse' := Place(lru, id, OnLru(handles', id)), Place(inUse, id, OnInUse(handles', id));
            && Listed(handles', lru', inUse')
            && Weighed(handles', lru', inUse', usage - Weight(handles, id) + Weight(handles', id))
  {
    PlaceElement(lru, id, OnLru(handles', id));
    PlaceElement(inUse, id, OnInUse(handles', id));
    PlaceSum(handles, handles', lru, id, OnLru(handles', id));
    PlaceSum(handles, handles', inUse, id, OnInUse(handles', id));
  }

  lemma RefCounts(handles: Handles, clients: multiset<nat>, nextId: nat, deleted: seq<nat>, id: nat)
    requires Counted(handles, clients, -1) && Disposed(handles, nextId, deleted) && id in handles
    ensures var handles' := handles[id := handles[id].(refs := handles[id].refs + 1)];
            Counted(handles', clients + multiset{id}, -1) && Disposed(handles', nextId, deleted)
  {
  }

  lemma UnrefCounts(handles: Handles, clients: multiset<nat>, nextId: nat, deleted: seq<nat>, id: nat)
    requires Counted(handles, clients, id) && Disposed(handles, nextId, deleted) && id in handles
          && handles[id].refs > 1
    ensures var handles' := handles[id := handles[id].(refs := handles[id].refs - 1)];
            Counted(handles', clients, -1) && Disposed(handles', nextId, deleted)
  {
  }

  /** The last reference is given up: no client holds the entry, and it is not in the cache. */
  lemma LastUnref(handles: Handles, clients: multiset<nat>, nextId: nat, deleted: seq<nat>, id: nat)
    requires Counted(handles, clients, id) && Disposed(handles, nextId, deleted) && id in handles
          && handles[id].refs == 1
    ensures !handles[id].inCache && id !in clients
    ensures Counted(handles - {id}, clients, -1) && Disposed(handles - {id}, nextId, deleted + [id])
  {
    AppendElement(deleted, id);
  }

  /** An entry that leaves the cache has one reference too many. */
  lemma LeavingCounts(handles: Handles, clients: multiset<nat>, nextId: nat, deleted: seq<nat>, id: nat)
    requires Counted(handles, clients, -1) && Disposed(handles, nextId, deleted) && id in handles && handles[id].inCache
    ensures var handles' := handles[id := handles[id].(inCache := false)];
            Counted(handles', clients, id) && Disposed(handles', nextId, deleted)
  {
  }

  ghost predicate IsBalanced(handles: Handles, lru: seq<nat>, inUse: seq<nat>, usage: int, clients: multiset<nat>,
                             nextId: nat, deleted: seq<nat>, extra: int) {
    && Listed(handles, lru, inUse) && Weighed(handles, lru, inUse, usage)
    && Counted(handles, clients, extra) && Disposed(handles, nextId, deleted)
  }

  lemma RemoveAbsentFrom(lru: seq<nat>, inUse: seq<nat>, handles: Handles, id: nat)
    requires Listed(handles, lru, inUse)
    ensures id !in lru ==> Remove(lru, id) == lru
    ensures id !in inUse ==> Remove(inUse, id) == inUse
  {
    if id !in lru { RemoveAbsent(lru, id); }
    if id !in inUse { RemoveAbsent(inUse, id); }
  }

  lemma RefKeeps(handles: Handles, lru: seq<nat>, inUse: seq<nat>, usage: int, clients: multiset<nat>,
                 nextId: nat, deleted: seq<nat>, id: nat, handles': Handles, lru': seq<nat>, inUse': seq<nat>)
    requires IsBalanced(handles, lru, inUse, usage, clients, nextId, deleted, -1) && id in handles
    requires handles' == handles[id := handles[id].(refs := handles[id].refs + 1)]
    requires lru' == if OnLru(handles, id) then Remove(lru, id) else lru
    requires inUse' == if OnLru(handles, id) then inUse + [id] else inUse
    ensures IsBalanced(handles', lru', inUse', usage, clients + multiset{id}, nextId, deleted, -1)
  {
    RefCounts(handles, clients, nextId, deleted, id);
    assert Listed(handles', lru', inUse') && Weighed(handles', lru', inUse', usage) by {
      Relist(handles, handles', lru, inUse, usage, id);
      RemoveAbsentFrom(lru, inUse, handles, id);
    }
  }

  lemma UnrefKeeps(handles: Handles, lru: seq<nat>, inUse: seq<nat>, usage: int, clients: multiset<nat>,
                   nextId: nat, deleted: seq<nat>, id: nat)
    requires IsBalanced(handles, lru, inUse, usage, clients, nextId, deleted, id) && id in handles
          && handles[id].refs > 1
    ensures var e, last := handles[id], handles[id].refs == 2 && handles[id].inCache;
            IsBalanced(handles[id := e.(refs := e.refs - 1)], if last then lru + [id] else lru,
                       if last then Remove(inUse, id) else inUse, usage, clients, nextId, deleted, -1)
  {
    var e := handles[id];
    Relist(handles, handles[id := e.(refs := e.refs - 1)], lru, inUse, usage, id);
    UnrefCounts(handles, clients, nextId, deleted, id);
    RemoveAbsentFrom(lru, inUse, handles, id);
  }

  lemma LastUnrefKeeps(handles: Handles, lru: seq<nat>, inUse: seq<nat>, usage: int, clients: multiset<nat>,
                       nextId: nat, deleted: seq<nat>, id: nat)
    requires IsBalanced(handles, lru, inUse, usage, clients, nextId, deleted, id) && id in handles
          && handles[id].refs == 1
    ensures !handles[id].inCache && id !in clients
    ensures IsBalanced(handles - {id}, lru, inUse, usage, clients, nextId, deleted + [id], -1)
  {
    LastUnref(handles, clients, nextId, deleted, id);
    Relist(handles, handles - {id}, lru, inUse, usage, id);
    RemoveAbsentFrom(lru, inUse, handles, id);
  }

  lemma LeavingKeeps(handles: Handles, lru: seq<nat>, inUse: seq<nat>, usage: int, clients: multiset<nat>,
                     nextId: nat, deleted: seq<nat>, id: nat)
    requires IsBalanced(handles, lru, inUse, usage, clients, nextId, deleted, -1) && id in handles
          && handles[id].inCache
    ensures IsBalanced(handles[id := handles[id].(inCache := false)], Remove(lru, id), Remove(inUse, id),
                       usage - handles[id].charge, clients, nextId, deleted, id)
  {
    LeavingCounts(handles, clients, nextId, deleted, id);
    Relist(handles, handles[id := handles[id].(inCache := false)], lru, inUse, usage, id);
  }

  // -------------------------------------------------------------------- cache

  class LRUCache {
    const capacity: nat
    const table: HandleTable
    var usage: int
    var lru: seq<nat>                     // oldest first
    var inUse: seq<nat>
    var handles: Handles
    var nextId: nat
    ghost var clients: multiset<nat>      // the handles that clients hold
    ghost var deleted: seq<nat>           // the entries whose deleters have run, in order

    /** All but the table; `extra` has one reference more than it should for a moment. */
    ghost predicate Balanced(extra: int)
      reads this
    {
      IsBalanced(handles, lru, inUse, usage, clients, nextId, deleted, extra)
    }

    ghost predicate Valid()
      reads this, table
    {
      table.Valid() && Balanced(-1) && Indexed(handles, table.contents, -1)
    }

    constructor (capacity: nat)
      ensures Valid() && fresh(table) && this.capacity == capacity && handles == map[]
    {
      this.capacity := capacity;
      table := new HandleTable();
      usage, lru, inUse, handles, nextId := 0, [], [], map[], 0;
      clients, deleted := multiset{}, [];
    }

    /** Every cached entry is in exactly one list; a deleter has run once, for an entry that no client
        holds and no lookup finds. */
    lemma Accounted()
      requires Valid()
      ensures forall id: nat :: id in handles && handles[id].inCache ==> (id in lru <==> id !in inUse)
      ensures NoDuplicates(deleted) && forall id: nat :: id in deleted ==>
                id !in clients && id !in table.contents.Values
      ensures forall id: nat :: id < nextId ==> (id in handles <==> id !in deleted)
    {
      forall id: nat | id in deleted ensures id !in table.contents.Values {
        forall k | k in table.contents ensures table.contents[k] != id {}
      }
    }

    method Ref(id: nat)
      requires Balanced(-1) && id in handles
      modifies this`lru, this`inUse, this`handles, this`clients
      ensures Balanced(-1) && clients == old(clients) + multiset{id}
      ensures handles == old(handles)[id := old(handles)[id].(refs := old(handles)[id].refs + 1)]
      ensures lru == if OnLru(old(handles), id) then Remove(old(lru), id) else old(lru)
    {
      if OnLru(handles, id) {
        Pin(id);
      } else {
        Share(id);
      }
    }

    /** An entry that only the cache held changes lists. */
    method Pin(id: nat)
      requires Balanced(-1) && OnLru(handles, id)
      modifies this`lru, this`inUse, this`handles, this`clients
      ensures Balanced(-1) && clients == old(clients) + multiset{id} && lru == Remove(old(lru), id)
      ensures handles == old(handles)[id := old(handles)[id].(refs := old(handles)[id].refs + 1)]
    {
      var after := handles[id := handles[id].(refs := handles[id].refs + 1)];
      RefKeeps(handles, lru, inUse, usage, clients, nextId, deleted, id, after, Remove(lru, id), inUse + [id]);
      lru, inUse, handles := Remove(lru, id), inUse + [id], after;
      clients := clients + multiset{id};
    }

    method Share(id: nat)
      requires Balanced(-1) && id in handles && !OnLru(handles, id)
      modifies this`handles, this`clients
      ensures Balanced(-1) && clients == old(clients) + multiset{id}
      ensures handles == old(handles)[id := old(handles)[id].(refs := old(handles)[id].refs + 1)]
    {
      var after := handles[id := handles[id].(refs := handles[id].refs + 1)];
      RefKeeps(handles, lru, inUse, usage, clients, nextId, deleted, id, after, lru, inUse);
      handles := after;
      clients := clients + multiset{id};
    }

    /** Gives up the extra reference; the last one runs the deleter. */
    method Unref(id: nat)
      requires Balanced(id) && id in handles
      modifies this`lru, this`inUse, this`handles, this`deleted
      ensures Balanced(-1)
      ensures var e := old(handles)[id];
              if e.refs == 1 then
                !e.inCache && handles == old(handles) - {id} && deleted == old(deleted) + [id] && id !in clients
              else handles == old(handles)[id := e.(refs := e.refs - 1)] && deleted == old(deleted)
      ensures lru == if LastClient(old(handles), id) then old(lru) + [id] else old(lru)
    {
      if handles[id].refs == 1 {
        Dispose(id);
      } else {
        Decrement(id);
      }
    }

    /** Runs the deleter and frees the entry. */
    method Dispose(id: nat)
      requires Balanced(id) && id in handles && handles[id].refs == 1
      modifies this`handles, this`deleted
      ensures Balanced(-1) && !old(handles)[id].inCache && id !in clients
      ensures handles == old(handles) - {id} && deleted == old(deleted) + [id]
    {
      LastUnrefKeeps(handles, lru, inUse, usage, clients, nextId, deleted, id);
      handles := handles - {id};
      deleted := deleted + [id];
    }

    method Decrement(id: nat)
      requires Balanced(id) && id in handles && handles[id].refs > 1
      modifies this`lru, this`inUse, this`handles
      ensures Balanced(-1) && handles == old(handles)[id := old(handles)[id].(refs := old(handles)[id].refs - 1)]
      ensures lru == if LastClient(old(handles), id) then old(lru) + [id] else old(lru)
    {
      var e := handles[id];
      UnrefKeeps(handles, lru, inUse, usage, clients, nextId, deleted, id);
      var last := e.refs == 2 && e.inCache;
      lru, inUse := if last then lru + [id] else lru, if last then Remove(inUse, id) else inUse;
      handles := handles[id := e.(refs := e.refs - 1)];
    }

    /** Takes an entry, that the table does not find any more, out of the cache. */
    method FinishErase(id: nat)
      requires Balanced(-1) && id in handles && handles[id].inCache
      modifies this`lru, this`inUse, this`handles, this`deleted, this`usage
      ensures Balanced(-1) && usage == old(usage) - old(handles)[id].charge
      ensures DifferAt(old(handles), handles, id) && lru == Remove(old(lru), id)
      ensures id in handles ==> !handles[id].inCache && handles[id].key == old(handles)[id].key
    {
      Unlist(id);
      Unref(id);
    }

    /** The entry leaves its list; the reference of the cache is still to be given up. */
    method Unlist(id: nat)
      requires Balanced(-1) && id in handles && handles[id].inCache
      modifies this`lru, this`inUse, this`handles, this`usage
      ensures Balanced(id) && usage == old(usage) - old(handles)[id].charge && lru == Remove(old(lru), id)
      ensures handles == old(handles)[id := old(handles)[id].(inCache := false)]
    {
      LeavingKeeps(handles, lru, inUse, usage, clients, nextId, deleted, id);
      lru, inUse := Remove(lru, id), Remove(inUse, id);
      usage := usage - handles[id].charge;
      handles := handles[id := handles[id].(inCache := false)];
    }

    method Lookup(key: Key) returns (r: Option<nat>)
      requires Valid()
      modifies this
      ensures Valid() && usage == old(usage) && deleted == old(deleted)
      ensures r == if key in table.contents then Some(table.contents[key]) else None
      ensures r.Some? ==>
                r.value in handles && handles[r.value].key == key && clients == old(clients) + multiset{r.value}
      ensures r == None ==> clients == old(clients) && handles == old(handles)
      ensures lru == if r.Some? && OnLru(old(handles), r.value) then Remove(old(lru), r.value) else old(lru)
    {
      r := table.Lookup(key);
      if r.Some? {
        Ref(r.value);
      }
    }

    /** A client gives back a handle. */
    method Release(id: nat)
      requires Valid() && id in clients
      modifies this
      ensures Valid() && clients == old(clients) - multiset{id} && usage == old(usage)
      ensures deleted == old(deleted) || (deleted == old(deleted) + [id] && id !in clients)
      ensures id in old(handles) && lru == if LastClient(old(handles), id) then old(lru) + [id] else old(lru)
    {
      ReleaseCounts(handles, clients, id);
      clients := clients - multiset{id};
      Unref(id);
    }

    /** Takes a key out of the cache. */
    method Erase(key: Key)
      requires Valid()
      modifies this, table
      ensures Valid() && table.contents == old(table.contents) - {key} && clients == old(clients)
      ensures lru == Without(old(lru), old(table.contents), key)
      ensures SameBut(old(handles), handles, Holders(old(table.contents), key))
    {
      ghost var before := handles;
      TableForgets(handles, table.contents, key);
      var e := table.Remove(key);
      if e.Some? {
        FinishErase(e.value);
        GoneIsOut(before, handles, table.contents, e.value);
      }
    }

    /** Adds an entry, for which the caller gets a handle, and evicts the oldest entries without clients
        while the cache is over its capacity. */
    method Insert(key: Key, value: int, charge: nat) returns (id: nat)
      requires Valid()
      modifies this, table
      ensures Valid() && id == old(nextId) && clients == old(clients) + multiset{id}
      ensures id in handles && handles[id].key == key && handles[id].value == value && handles[id].charge == charge
      ensures handles[id].inCache == (capacity > 0)
      ensures capacity > 0 ==> key in table.contents && table.contents[key] == id
      ensures usage <= capacity || lru == []
      ensures var list := if capacity > 0 then Without(old(lru), old(table.contents), key) else old(lru);
              EvictsFrom(list, old(handles), capacity, lru, usage)
      ensures SparesPinned(old(lru), old(handles), handles, Holders(old(table.contents), key))
    {
      id := Allocate(key, value, charge);
      ghost var handles0, contents0 := handles, table.contents;
      if capacity > 0 {
        InsertInCache(id);
      }
      ghost var lru1, handles1, usage1, contents1 := lru, handles, usage, table.contents;
      assert id !in lru;
      Evict();
      InsertEvicts(old(lru), old(handles), handles0, contents0, key, id, lru1, handles1, usage1, contents1, capacity,
                   lru, handles, usage, table.contents);
    }

    /** The new entry goes into the cache, in place of one with the same key. */
    method InsertInCache(id: nat)
      requires Valid() && id in handles && !handles[id].inCache
      modifies this, table
      ensures Valid() && clients == old(clients) && nextId == old(nextId)
      ensures id in handles && handles[id] == old(handles)[id].(inCache := true, refs := old(handles)[id].refs + 1)
      ensures table.contents == old(table.contents)[handles[id].key := id]
      ensures lru == Without(old(lru), old(table.contents), handles[id].key)
      ensures SameBut(old(handles), handles, {id} + Holders(old(table.contents), handles[id].key))
    {
      ghost var handles0, contents0, key := handles, table.contents, handles[id].key;
      AddToCache(id);
      ghost var handles1 := handles;
      TableFollows(handles, table.contents, id);
      var previous := table.Insert(handles[id].key, id);
      if previous.Some? {
        FinishErase(previous.value);
        GoneIsOut(handles1, handles, table.contents, previous.value);
      }
      ReplacedOnly(handles0, handles1, handles, contents0, key, id, previous);
    }

    /** A new entry, with a handle for the caller. */
    method Allocate(key: Key, value: int, charge: nat) returns (id: nat)
      requires Valid()
      modifies this`handles, this`nextId, this`clients
      ensures Valid() && id == old(nextId) == nextId - 1 && clients == old(clients) + multiset{id}
      ensures handles == old(handles)[id := Handle(key, value, charge, false, 1)] && id !in old(handles)
    {
      id := nextId;
      AllocateKeeps(handles, lru, inUse, usage, clients, nextId, deleted, Handle(key, value, charge, false, 1));
      NewIsIgnored(handles, table.contents, id, Handle(key, value, charge, false, 1));
      handles := handles[id := Handle(key, value, charge, false, 1)];
      nextId := nextId + 1;
      clients := clients + multiset{id};
    }

    /** The cache takes a reference; the table is to follow. */
    method AddToCache(id: nat)
      requires Balanced(-1) && Indexed(handles, table.contents, -1) && id in handles && !handles[id].inCache
      modifies this`handles, this`inUse, this`usage
      ensures Balanced(-1) && Indexed(handles, table.contents, id)
      ensures handles == old(handles)[id := old(handles)[id].(inCache := true, refs := old(handles)[id].refs + 1)]
    {
      var e := handles[id];
      var after := handles[id := e.(inCache := true, refs := e.refs + 1)];
      AddKeeps(handles, lru, inUse, usage, clients, nextId, deleted, id, after);
      NewIsNotFound(handles, after, table.contents, id);
      handles, inUse, usage := after, inUse + [id], usage + e.charge;
    }

    /** The loop of Insert: the oldest entries without clients go. */
    method Evict()
      requires Valid()
      modifies this, table
      ensures Valid() && (usage <= capacity || lru == [])
      ensures clients == old(clients) && nextId == old(nextId)
      ensures Spared(old(lru), old(handles), handles, old(table.contents), table.contents)
      ensures EvictsOldest(old(lru), old(handles), old(usage), capacity, lru, usage)
    {
      ghost var lru0, handles0, usage0, contents0 := lru, handles, usage, table.contents;
      while usage > capacity && lru != []
        invariant Valid() && clients == old(clients) && nextId == old(nextId)
        invariant Evicting(lru0, handles0, usage0, contents0, capacity, lru, handles, usage, table.contents)
        decreases |lru|
      {
        EvictNext(lru0, handles0, usage0, contents0);
      }
    }

    method EvictNext(ghost lru0: seq<nat>, ghost handles0: Handles, ghost usage0: int, ghost contents0: map<Key, nat>)
      requires Valid() && usage > capacity && lru != []
      requires Evicting(lru0, handles0, usage0, contents0, capacity, lru, handles, usage, table.contents)
      modifies this, table
      ensures Valid() && |lru| < |old(lru)| && clients == old(clients) && nextId == old(nextId)
      ensures Evicting(lru0, handles0, usage0, contents0, capacity, lru, handles, usage, table.contents)
    {
      ghost var lru1, handles1, usage1, contents1 := lru, handles, usage, table.contents;
      EvictOldest();
      EvictStep(lru0, handles0, usage0, contents0, capacity, lru1, handles1, usage1, contents1, handles,
                table.contents);
    }

    method EvictOldest()
      requires Valid() && lru != []
      modifies this, table
      ensures Valid() && lru == old(lru)[1..] && clients == old(clients) && nextId == old(nextId)
      ensures old(lru)[0] in old(handles) && usage == old(usage) - old(handles)[old(lru)[0]].charge
      ensures DifferAt(old(handles), handles, old(lru)[0])
      ensures Finds(old(table.contents), old(handles)[old(lru)[0]].key, old(lru)[0])
      ensures table.contents == old(table.contents) - {old(handles)[old(lru)[0]].key}
    {
      var oldest := lru[0];
      assert oldest in lru;
      ghost var before := handles;
      TableForgets(handles, table.contents, handles[oldest].key);
      var e := table.Remove(handles[oldest].key);
      FinishErase(oldest);
      GoneIsOut(before, handles, table.contents, oldest);
    }

    /** Evicts all entries without clients. */
    method Prune()
      requires Valid()
      modifies this, table
      ensures Valid() && lru == [] && clients == old(clients)
    {
      while lru != []
        invariant Valid() && clients == old(clients)
        decreases |lru|
      {
        EvictOldest();
      }
    }
  }

  ghost predicate Finds(contents: map<Key, nat>, key: Key, id: nat) {
    key in contents && contents[key] == id
  }

  /** The entry that the table finds under the key. */
  ghost function Holders(contents: map<Key, nat>, key: Key): set<nat> {
    if key in contents then {contents[key]} else {}
  }

  /** The list without the entry that the table finds under the key. */
  function Without(list: seq<nat>, contents: map<Key, nat>, key: Key): seq<nat> {
    if key in contents then Remove(list, contents[key]) else list
  }

  ghost predicate SameBut(handles: Handles, handles': Handles, ids: set<nat>) {
    forall x: nat :: x !in ids ==> (x in handles <==> x in handles') && (x in handles ==> handles[x] == handles'[x])
  }

  /** What is left of the list is its newer end, and the last entry to go was one too many. */
  ghost predicate EvictsFrom(list: seq<nat>, handles: Handles, capacity: int, lru: seq<nat>, usage: int) {
    && |lru| <= |list| && lru == list[|list| - |lru|..]
    && (|lru| < |list| ==>
          var last := list[|list| - |lru| - 1]; last in handles && usage + handles[last].charge > capacity)
  }

  /** Entries that had clients are as they were, but for the one that was replaced. */
  ghost predicate SparesPinned(lru: seq<nat>, handles: Handles, handles': Handles, replaced: set<nat>) {
    forall x: nat :: x in handles && x !in lru && x !in replaced ==> x in handles' && handles'[x] == handles[x]
  }

  lemma EvictedWereOld(list: seq<nat>, handles: Handles, handles1: Handles, usage1: int, capacity: int,
                       lru: seq<nat>, usage: int)
    requires EvictsOldest(list, handles1, usage1, capacity, lru, usage)
    requires forall x :: x in list ==> x in handles && (x in handles1 ==> handles1[x] == handles[x])
    ensures EvictsFrom(list, handles, capacity, lru, usage)
  {
    assert |lru| < |list| ==> list[|list| - |lru| - 1] in list;
  }

  lemma ListKeepsHandles(lru: seq<nat>, handles: Handles, contents: map<Key, nat>, key: Key, id: nat, handles1: Handles)
    requires NoDuplicates(lru) && id !in lru && forall x :: x in lru ==> x in handles
    requires SameBut(handles, handles1, {id} + Holders(contents, key))
    ensures forall x :: x in Without(lru, contents, key) ==>
              x in lru && x in handles && x in handles1 && handles1[x] == handles[x]
  {
    if key in contents { RemoveElement(lru, contents[key]); }
  }

  lemma PinnedStay(lru: seq<nat>, handles: Handles, lru1: seq<nat>, handles1: Handles, contents1: map<Key, nat>,
                   handles2: Handles, contents2: map<Key, nat>, id: nat, replaced: set<nat>)
    requires id !in handles && SameBut(handles, handles1, {id} + replaced)
    requires (forall x :: x in lru1 ==> x in lru) && Spared(lru1, handles1, handles2, contents1, contents2)
    ensures SparesPinned(lru, handles, handles2, replaced)
  {
  }

  /** Inserting as a whole: the new entry and the one it replaces aside, entries change by eviction only. */
  lemma InsertEvicts(lru: seq<nat>, handles: Handles, handles0: Handles, contents: map<Key, nat>, key: Key, id: nat,
                     lru1: seq<nat>, handles1: Handles, usage1: int, contents1: map<Key, nat>, capacity: int,
                     lru2: seq<nat>, handles2: Handles, usage2: int, contents2: map<Key, nat>)
    requires id !in handles && SameBut(handles, handles0, {id}) && id !in lru && NoDuplicates(lru)
    requires forall x :: x in lru ==> x in handles
    requires if capacity > 0 then
               lru1 == Without(lru, contents, key) && SameBut(handles0, handles1, {id} + Holders(contents, key))
             else lru1 == lru && handles1 == handles0
    requires EvictsOldest(lru1, handles1, usage1, capacity, lru2, usage2)
    requires Spared(lru1, handles1, handles2, contents1, contents2)
    ensures EvictsFrom(if capacity > 0 then Without(lru, contents, key) else lru, handles, capacity, lru2, usage2)
    ensures SparesPinned(lru, handles, handles2, Holders(contents, key))
  {
    assert SameBut(handles, handles1, {id} + Holders(contents, key));
    if capacity > 0 { ListKeepsHandles(lru, handles, contents, key, id, handles1); }
    EvictedWereOld(lru1, handles, handles1, usage1, capacity, lru2, usage2);
    PinnedStay(lru, handles, lru1, handles1, contents1, handles2, contents2, id, Holders(contents, key));
  }

  /** The new entry is cached, and the one it replaces is gone or left to its clients. */
  lemma ReplacedOnly(handles: Handles, cached: Handles, after: Handles, contents: map<Key, nat>, key: Key, id: nat,
                     previous: Option<nat>)
    requires id in handles && DifferAt(handles, cached, id) && id in cached
    requires previous == if key in contents then Some(contents[key]) else None
    requires if previous.Some? then previous.value != id && DifferAt(cached, after, previous.value) else after == cached
    ensures SameBut(handles, after, {id} + Holders(contents, key)) && id in after && after[id] == cached[id]
  {
  }

  lemma NewIsIgnored(handles: Handles, contents: map<Key, nat>, id: nat, e: Handle)
    requires Indexed(handles, contents, -1) && id !in handles && !e.inCache
    ensures Indexed(handles[id := e], contents, -1)
  {
  }

  /** The oldest entries have left, each of them only because the cache was still over its capacity. */
  ghost predicate EvictsOldest(lru: seq<nat>, handles: Handles, usage: int, capacity: int, lru': seq<nat>,
                               usage': int)
  {
    && |lru'| <= |lru| && lru' == lru[|lru| - |lru'|..]
    && (|lru'| == |lru| ==> usage' == usage)
    && (|lru'| < |lru| ==>
          var last := lru[|lru| - |lru'| - 1];
          last in handles && usage' + handles[last].charge > capacity)
  }

  ghost predicate Untouched(list: seq<nat>, handles: Handles, handles': Handles) {
    forall id :: id in list ==> id in handles && id in handles' && handles'[id] == handles[id]
  }

  /** Where the loop of Insert has come to. */
  ghost predicate Evicting(lru: seq<nat>, handles: Handles, usage: int, contents: map<Key, nat>, capacity: int,
                           lru': seq<nat>, handles': Handles, usage': int, contents': map<Key, nat>) {
    && EvictsOldest(lru, handles, usage, capacity, lru', usage') && Untouched(lru', handles, handles')
    && Spared(lru, handles, handles', contents, contents') && NoDuplicates(lru')
  }

  lemma OneMoreEvicted(lru: seq<nat>, handles: Handles, usage: int, capacity: int, lru': seq<nat>, usage': int,
                       handles': Handles)
    requires EvictsOldest(lru, handles, usage, capacity, lru', usage') && Untouched(lru', handles, handles')
    requires lru' != [] && usage' > capacity
    ensures lru'[0] in handles'
    ensures EvictsOldest(lru, handles, usage, capacity, lru'[1..], usage' - handles'[lru'[0]].charge)
    ensures lru'[0] in lru && forall id :: id in lru'[1..] ==> id in lru'
  {
    assert lru'[0] in lru' && lru'[0] == lru[|lru| - |lru'|];
  }

  lemma EvictStep(lru: seq<nat>, handles: Handles, usage: int, contents: map<Key, nat>, capacity: int,
                  lru1: seq<nat>, handles1: Handles, usage1: int, contents1: map<Key, nat>,
                  handles2: Handles, contents2: map<Key, nat>)
    requires Evicting(lru, handles, usage, contents, capacity, lru1, handles1, usage1, contents1) && lru1 != []
          && usage1 > capacity
    requires lru1[0] in handles1 && DifferAt(handles1, handles2, lru1[0])
    requires contents2 == contents1 - {handles1[lru1[0]].key}
    requires Finds(contents1, handles1[lru1[0]].key, lru1[0])
    ensures Evicting(lru, handles, usage, contents, capacity, lru1[1..], handles2, usage1 - handles1[lru1[0]].charge,
                     contents2)
  {
    OneMoreEvicted(lru, handles, usage, capacity, lru1, usage1, handles1);
    assert lru1[0] !in lru1[1..];
    forall k | k in contents && contents[k] !in lru ensures k in contents2 && contents2[k] == contents[k] {
      assert k in contents1 && contents1[k] == contents[k];
    }
  }

  /** Entries that were not on the list are untouched, and still found. */
  ghost predicate Spared(lru: seq<nat>, handles: Handles, handles': Handles, contents: map<Key, nat>,
                         contents': map<Key, nat>)
  {
    && (forall id :: id in handles && id !in lru ==> id in handles' && handles'[id] == handles[id])
    && (forall k :: k in contents && contents[k] !in lru ==> k in contents' && contents'[k] == contents[k])
  }

  lemma NewIsNotFound(handles: Handles, handles': Handles, contents: map<Key, nat>, id: nat)
    requires Indexed(handles, contents, -1) && DifferAt(handles, handles', id) && id in handles && !handles[id].inCache
    ensures Indexed(handles', contents, id)
  {
  }

  /** The table finds the new entry; the one it found before, if any, is on its way out. */
  lemma TableFollows(handles: Handles, contents: map<Key, nat>, id: nat)
    requires Indexed(handles, contents, id) && id in handles && handles[id].inCache
    ensures var key := handles[id].key;
            if key in contents then
              contents[key] != id && contents[key] in handles && handles[contents[key]].inCache
              && Indexed(handles, contents[key := id], contents[key])
            else Indexed(handles, contents[key := id], -1)
  {
  }

  lemma TableForgets(handles: Handles, contents: map<Key, nat>, key: Key)
    requires Indexed(handles, contents, -1)
    ensures if key in contents then
              contents[key] in handles && handles[contents[key]].inCache
                && Indexed(handles, contents - {key}, contents[key])
            else Indexed(handles, contents - {key}, -1)
  {
  }

  lemma GoneIsOut(handles: Handles, handles': Handles, contents: map<Key, nat>, gone: nat)
    requires Indexed(handles, contents, gone) && DifferAt(handles, handles', gone)
    requires gone in handles' ==> !handles'[gone].inCache
    ensures Indexed(handles', contents, -1)
  {
  }

  lemma AllocateKeeps(handles: Handles, lru: seq<nat>, inUse: seq<nat>, usage: int, clients: multiset<nat>,
                      nextId: nat, deleted: seq<nat>, e: Handle)
    requires IsBalanced(handles, lru, inUse, usage, clients, nextId, deleted, -1) && !e.inCache && e.refs == 1
    ensures nextId !in handles
    ensures IsBalanced(handles[nextId := e], lru, inUse, usage, clients + multiset{nextId}, nextId + 1, deleted, -1)
  {
    Relist(handles, handles[nextId := e], lru, inUse, usage, nextId);
    RemoveAbsentFrom(lru, inUse, handles, nextId);
  }

  lemma AddCounts(handles: Handles, clients: multiset<nat>, nextId: nat, deleted: seq<nat>, id: nat)
    requires Counted(handles, clients, -1) && Disposed(handles, nextId, deleted) && id in handles
          && !handles[id].inCache
    ensures var handles' := handles[id := handles[id].(inCache := true, refs := handles[id].refs + 1)];
            Counted(handles', clients, -1) && Disposed(handles', nextId, deleted)
  {
  }

  lemma AddKeeps(handles: Handles, lru: seq<nat>, inUse: seq<nat>, usage: int, clients: multiset<nat>,
                 nextId: nat, deleted: seq<nat>, id: nat, handles': Handles)
    requires IsBalanced(handles, lru, inUse, usage, clients, nextId, deleted, -1) && id in handles
          && !handles[id].inCache
    requires handles' == handles[id := handles[id].(inCache := true, refs := handles[id].refs + 1)]
    ensures IsBalanced(handles', lru, inUse + [id], usage + handles[id].charge, clients, nextId, deleted, -1)
  {
    AddCounts(handles, clients, nextId, deleted, id);
    assert Listed(handles', lru, inUse + [id]) && Weighed(handles', lru, inUse + [id], usage + handles[id].charge) by {
      Relist(handles, handles', lru, inUse, usage, id);
      RemoveAbsentFrom(lru, inUse, handles, id);
    }
  }

  lemma ReleaseCounts(handles: Handles, clients: multiset<nat>, id: nat)
    requires Counted(handles, clients, -1) && id in clients
    ensures Counted(handles, clients - multiset{id}, id)
  {
  }
}
