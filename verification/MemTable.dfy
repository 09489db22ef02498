/** The memtable as a sorted run of entries (db/memtable.cc). */
module MemTable {
  import opened InternalKeys

  /** No two entries of the run share a user key and a sequence number. */
  ghost predicate NewKey(run: seq<Entry>, e: Entry) {
    forall x :: x in run ==> x.key.user != e.key.user || x.key.sequence != e.key.sequence
  }

  /** Inserting keeps a run sorted. */
  function Add(run: seq<Entry>, e: Entry): (r: seq<Entry>)
    ensures forall x :: x in r <==> x in run || x == e
    ensures |r| == |run| + 1
  {
    if run == [] || Precedes(e.key, run[0].key) then [e] + run else [run[0]] + Add(run[1..], e)
  }

  lemma {:induction false} AddIsSorted(run: seq<Entry>, e: Entry)
    requires Sorted(run) && NewKey(run, e)
    ensures Sorted(Add(run, e))
  {
    if run != [] && !Precedes(e.key, run[0].key) {
      AddIsSorted(run[1..], e);
      var rest := Add(run[1..], e);
      assert Precedes(run[0].key, e.key);
      forall j | 0 <= j < |rest| ensures Precedes(run[0].key, rest[j].key) {
        assert rest[j] in rest;
        if rest[j] != e {
          var k :| 0 <= k < |run[1..]| && run[1..][k] == rest[j];
        }
      }
    }
  }
}
