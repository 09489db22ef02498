/** The queue of writers (db/db_impl.cc: Write, BuildBatchGroup; db/write_batch.cc: InsertInto).

    The writer at the front leads: it logs and inserts the batches of a group of writers behind it, and
    gives them its status.  The steps of the protocol come in any order that their guards allow. */
module WriteQueue {
  import opened Wrappers
  import opened InternalKeys

  datatype Op = Op(kind: Kind, user: UserKey, value: string)

  /** A waiting call: its batch, if it has one, the size of the batch, and whether it asked for a sync. */
  datatype Writer = Writer(id: nat, batch: Option<seq<Op>>, size: nat, sync: bool)

  function Ops(w: Writer): seq<Op> {
    w.batch.GetOr([])
  }

  function AllOps(ws: seq<Writer>): seq<Op> {
    if ws == [] then [] else AllOps(ws[..|ws| - 1]) + Ops(ws[|ws| - 1])
  }

  /** The entries of operations numbered from `first` on. */
  function Stamp(ops: seq<Op>, first: nat): (r: seq<Entry>)
    ensures |r| == |ops|
  {
    seq(|ops|, i requires 0 <= i < |ops| => Entry(InternalKey(ops[i].user, first + i, ops[i].kind), ops[i].value))
  }

  /** InsertInto: every operation is added under the next sequence number. */
  method InsertInto(ops: seq<Op>, first: nat, mem: seq<Entry>) returns (r: seq<Entry>)
    ensures r == mem + Stamp(ops, first)
  {
    r := mem;
    var sequence := first;
    for i := 0 to |ops|
      invariant sequence == first + i && r == mem + Stamp(ops, first)[..i]
    {
      r := r + [Entry(InternalKey(ops[i].user, sequence, ops[i].kind), ops[i].value)];
      sequence := sequence + 1;
    }
  }

  // ------------------------------------------------------------------- groups

  const MAX_GROUP: nat := 0x10_0000
  const SMALL: nat := 0x2_0000

  function MaxSize(first: nat): nat {
    if first <= SMALL then first + SMALL else MAX_GROUP
  }

  /** The bytes of the batches among the first `n` writers. */
  function GroupSize(queue: seq<Writer>, n: nat): nat
    requires n <= |queue|
  {
    if n == 0 then 0 else GroupSize(queue, n - 1) + (if queue[n - 1].batch.Some? then queue[n - 1].size else 0)
  }

  /** The writer at `i` may join the group of those before it. */
  predicate Joins(queue: seq<Writer>, i: nat)
    requires 0 < i < |queue|
  {
    && (queue[i].sync ==> queue[0].sync)
    && (queue[i].batch.Some? ==> GroupSize(queue, i + 1) <= MaxSize(queue[0].size))
  }

  /** The first `n` writers are the group of the leader: it stops at the first writer that may not join. */
  ghost predicate IsGroup(queue: seq<Writer>, n: nat) {
    && 0 < n <= |queue| && queue[0].batch.Some?
    && (forall i :: 0 < i < n ==> Joins(queue, i))
    && (n < |queue| ==> !Joins(queue, n))
  }

  method BuildBatchGroup(queue: seq<Writer>) returns (n: nat, updates: seq<Op>)
    requires queue != [] && queue[0].batch.Some?
    ensures IsGroup(queue, n) && updates == AllOps(queue[..n])
  {
    var size := queue[0].size;
    assert GroupSize(queue, 1) == GroupSize(queue, 0) + size;
    var maxSize := MaxSize(size);
    n := 1;
    updates := queue[0].batch.value;
    assert queue[..1][..0] == [] && AllOps([]) == [];
    assert AllOps(queue[..1]) == updates;
    while n < |queue|
      invariant 0 < n <= |queue| && size == GroupSize(queue, n)
      invariant forall i :: 0 < i < n ==> Joins(queue, i)
      invariant updates == AllOps(queue[..n])
    {
      var w := queue[n];
      if w.sync && !queue[0].sync {
        break;
      }
      if w.batch.Some? {
        size := size + w.size;
        if size > maxSize {
          break;
        }
        updates := updates + w.batch.value;
      }
      assert queue[..n + 1][..n] == queue[..n];
      n := n + 1;
    }
  }

  /** The limits in numbers.  A group of more than the leader holds 1 MiB of batches at most, and no more
      than 128 KiB behind a leader that is no larger than that itself; and it ends only before a writer
      that would exceed this, or that wants a sync the leader did not ask for. */
  lemma GroupIsLongest(queue: seq<Writer>, n: nat)
    requires IsGroup(queue, n)
    ensures n > 1 && queue[n - 1].batch.Some? ==>
              && (queue[0].size > 131072 ==> GroupSize(queue, n) <= 1048576)
              && (queue[0].size <= 131072 ==> GroupSize(queue, n) - queue[0].size <= 131072)
    ensures n < |queue| ==>
              || (queue[n].sync && !queue[0].sync)
              || (queue[n].batch.Some? && GroupSize(queue, n) + queue[n].size >
                    if queue[0].size > 131072 then 1048576 else queue[0].size + 131072)
    ensures forall i :: 0 <= i < n && queue[i].sync ==> queue[0].sync
  {
    assert n > 1 ==> Joins(queue, n - 1);
    forall i | 0 <= i < n && queue[i].sync ensures queue[0].sync {
      assert i > 0 ==> Joins(queue, i);
    }
  }

  // ----------------------------------------------------------------- protocol

  datatype Status = Ok | Failed

  /** What became of a call: its operations as executed, their first number, whether they were logged
      and synced, and the status returned. */
  datatype Outcome = Outcome(writer: Writer, ops: seq<Op>, first: nat, logged: bool, synced: bool, status: Status)

  datatype Group = Group(n: nat, ops: seq<Op>)

  datatype State = State(
    queue: seq<Writer>,
    lastSequence: nat,
    log: seq<Entry>,            // the entries of the log records, one after the other
    mem: seq<Entry>,
    group: Option<Group>,       // the group being written while the mutex is released
    failing: bool,              // a background error makes all writes fail
    arrived: seq<Writer>,       // history: all calls, in the order they queued up
    served: seq<Outcome>)       // history: all calls that have returned or may return

  datatype Action =
    | Arrive(w: Writer)
    | Refuse                                   // no room can be made: the leader alone fails
    | ServeEmpty                               // a leader without a batch
    | BuildGroup(n: nat)
    | WriteGroup(logged: bool, synced: bool)   // how AddRecord and Sync went

  ghost predicate Enabled(s: State, a: Action) {
    match a
    case Arrive(w) => forall x :: x in s.arrived ==> x.id != w.id
    case Refuse => s.queue != [] && s.group == None
    case ServeEmpty => s.queue != [] && s.group == None && !s.failing && s.queue[0].batch == None
    case BuildGroup(n) => s.queue != [] && s.group == None && !s.failing && IsGroup(s.queue, n)
    case WriteGroup(logged, synced) => s.group.Some? && s.group.value.n <= |s.queue|
  }

  /** The outcomes of the first `n` writers of a group whose operations start at number `first`. */
  function Outcomes(queue: seq<Writer>, n: nat, first: nat, logged: bool, synced: bool,
                    status: Status): (r: seq<Outcome>)
    requires n <= |queue|
    ensures |r| == n
  {
    if n == 0 then [] else
      Outcomes(queue, n - 1, first, logged, synced, status)
      + [Outcome(queue[n - 1], Ops(queue[n - 1]), first + |AllOps(queue[..n - 1])|, logged, synced, status)]
  }

  ghost function Step(s: State, a: Action): State
    requires Enabled(s, a)
  {
    match a
    case Arrive(w) => s.(queue := s.queue + [w], arrived := s.arrived + [w])
    case Refuse =>
      s.(queue := s.queue[1..],
         served := s.served + [Outcome(s.queue[0], [], s.lastSequence + 1, false, false, Failed)])
    case ServeEmpty =>
      s.(queue := s.queue[1..], served := s.served + [Outcome(s.queue[0], [], s.lastSequence + 1, false, false, Ok)])
    case BuildGroup(n) => s.(group := Some(Group(n, AllOps(s.queue[..n]))))
    case WriteGroup(logged, synced) =>
      var g := s.group.value;
      var sync := g.n > 0 && s.queue[0].sync;
      var ok := logged && (sync ==> synced);
      var entries := Stamp(g.ops, s.lastSequence + 1);
      s.(queue := s.queue[g.n..], group := None, lastSequence := s.lastSequence + |g.ops|,
         log := if logged then s.log + entries else s.log,
         mem := if ok then s.mem + entries else s.mem,
         failing := s.failing || (logged && sync && !synced),
         served := s.served
           + Outcomes(s.queue, g.n, s.lastSequence + 1, logged, sync && synced, if ok then Ok else Failed))
  }

  // ---------------------------------------------------------------- invariant

  function Writers(served: seq<Outcome>): (r: seq<Writer>)
    ensures |r| == |served|
  {
    seq(|served|, i requires 0 <= i < |served| => served[i].writer)
  }

  /** The entries that were logged, in the order of the calls. */
  function Logged(served: seq<Outcome>): seq<Entry> {
    if served == [] then [] else
      var last := served[|served| - 1];
      Logged(served[..|served| - 1]) + (if last.logged then Stamp(last.ops, last.first) else [])
  }

  /** The entries of calls that returned success. */
  function Inserted(served: seq<Outcome>): seq<Entry> {
    if served == [] then [] else
      var last := served[|served| - 1];
      Inserted(served[..|served| - 1]) + (if last.status.Ok? then Stamp(last.ops, last.first) else [])
  }

  /** Calls take their numbers one after the other, from `first` on; `next` is the number to come. */
  ghost predicate Numbered(served: seq<Outcome>, first: nat, next: nat) {
    if served == [] then next == first else
      var last := served[|served| - 1];
      last.first + |last.ops| == next && Numbered(served[..|served| - 1], first, last.first)
  }

  /** A call that returned success with a batch had all of it logged, and synced if it asked for that. */
  ghost predicate Honest(o: Outcome) {
    o.status.Ok? ==> o.ops == Ops(o.writer) && (o.writer.batch.Some? ==> o.logged && (o.writer.sync ==> o.synced))
  }

  ghost predicate DistinctIds(ws: seq<Writer>) {
    forall i, j :: 0 <= i < j < |ws| ==> ws[i].id != ws[j].id
  }

  ghost predicate Inv(s: State, first: nat) {
    && s.arrived == Writers(s.served) + s.queue && DistinctIds(s.arrived)
    && s.log == Logged(s.served) && s.mem == Inserted(s.served)
    && Numbered(s.served, first, s.lastSequence + 1)
    && (forall i :: 0 <= i < |s.served| ==> Honest(s.served[i]))
    && (s.group.Some? ==>
          var g := s.group.value;
          0 < g.n <= |s.queue| && s.queue[0].batch.Some? && g.ops == AllOps(s.queue[..g.n])
          && SyncedByLeader(s.queue, g.n))
  }

  /** No writer that asked for a sync is behind a leader that did not. */
  ghost predicate SyncedByLeader(queue: seq<Writer>, n: nat)
    requires 0 < n <= |queue|
  {
    forall i :: 0 <= i < n ==> queue[i].sync ==> queue[0].sync
  }

  lemma OneMoreServed(s: State, t: State, o: Outcome, first: nat)
    requires Inv(s, first) && s.queue != [] && s.group == None && t.group == None
    requires o.writer == s.queue[0] && o.ops == [] && o.first == s.lastSequence + 1 && !o.logged && Honest(o)
    requires t == s.(queue := s.queue[1..], served := s.served + [o])
    ensures Inv(t, first)
  {
    assert t.served[..|s.served|] == s.served;
    assert Writers(t.served) == Writers(s.served) + [s.queue[0]];
    assert Writers(s.served) + s.queue == Writers(s.served) + [s.queue[0]] + s.queue[1..];
    assert Stamp([], o.first) == [];
  }

  lemma StampConcat(a: seq<Op>, b: seq<Op>, first: nat)
    ensures Stamp(a + b, first) == Stamp(a, first) + Stamp(b, first + |a|)
  {
  }

  /** The last writer of a group, behind those before it. */
  lemma LastOfGroup(served: seq<Outcome>, queue: seq<Writer>, n: nat, first: nat, logged: bool, synced: bool,
                    status: Status)
    requires 0 < n <= |queue|
    ensures var before := served + Outcomes(queue, n - 1, first, logged, synced, status);
            var all := served + Outcomes(queue, n, first, logged, synced, status);
            var ops := AllOps(queue[..n - 1]);
            var last := Outcome(queue[n - 1], Ops(queue[n - 1]), first + |ops|, logged, synced, status);
            && all == before + [last] && all[..|all| - 1] == before
            && queue[..n] == queue[..n - 1] + [last.writer]
            && AllOps(queue[..n]) == ops + last.ops
            && Stamp(AllOps(queue[..n]), first) == Stamp(ops, first) + Stamp(last.ops, last.first)
  {
    assert queue[..n][..n - 1] == queue[..n - 1];
    StampConcat(AllOps(queue[..n - 1]), Ops(queue[n - 1]), first);
  }

  /** One more outcome. */
  lemma OneMoreOutcome(served: seq<Outcome>, o: Outcome)
    ensures Writers(served + [o]) == Writers(served) + [o.writer]
    ensures Logged(served + [o]) == Logged(served) + (if o.logged then Stamp(o.ops, o.first) else [])
    ensures Inserted(served + [o]) == Inserted(served) + (if o.status.Ok? then Stamp(o.ops, o.first) else [])
  {
    assert (served + [o])[..|served|] == served;
  }

  /** What the history looks like after a group whose operations are `ops`. */
  ghost predicate GroupEffect(served: seq<Outcome>, all: seq<Outcome>, writers: seq<Writer>, entries: seq<Entry>,
                              logged: bool, status: Status)
  {
    && Writers(all) == Writers(served) + writers
    && Logged(all) == Logged(served) + (if logged then entries else [])
    && Inserted(all) == Inserted(served) + (if status.Ok? then entries else [])
  }

  lemma EffectGrows(served: seq<Outcome>, before: seq<Outcome>, writers: seq<Writer>, entries: seq<Entry>, o: Outcome)
    requires GroupEffect(served, before, writers, entries, o.logged, o.status)
    ensures GroupEffect(served, before + [o], writers + [o.writer], entries + Stamp(o.ops, o.first), o.logged, o.status)
  {
    OneMoreOutcome(before, o);
  }

  lemma NoEffect(served: seq<Outcome>, logged: bool, status: Status)
    ensures GroupEffect(served, served + [], [], [], logged, status)
  {
    assert served + [] == served;
  }

  /** The effect of serving a group: its operations, stamped as one batch, are those of its writers,
      stamped one after the other. */
  lemma {:induction false} GroupServed(served: seq<Outcome>, queue: seq<Writer>, n: nat, first: nat,
                                       logged: bool, synced: bool, status: Status)
    requires n <= |queue|
    ensures GroupEffect(served, served + Outcomes(queue, n, first, logged, synced, status), queue[..n],
                        Stamp(AllOps(queue[..n]), first), logged, status)
    decreases n
  {
    if n == 0 {
      NoEffect(served, logged, status);
      assert queue[..0] == [] && Stamp(AllOps([]), first) == [];
    } else {
      GroupServed(served, queue, n - 1, first, logged, synced, status);
      LastOfGroup(served, queue, n, first, logged, synced, status);
      var before := served + Outcomes(queue, n - 1, first, logged, synced, status);
      var entries := Stamp(AllOps(queue[..n - 1]), first);
      var last := Outcome(queue[n - 1], Ops(queue[n - 1]), first + |AllOps(queue[..n - 1])|, logged, synced, status);
      EffectOfLast(served, before, served + Outcomes(queue, n, first, logged, synced, status),
                   queue[..n - 1], queue[..n], entries, Stamp(AllOps(queue[..n]), first), last);
    }
  }

  lemma EffectOfLast(served: seq<Outcome>, before: seq<Outcome>, all: seq<Outcome>, writers: seq<Writer>,
                     writers': seq<Writer>, entries: seq<Entry>, entries': seq<Entry>, last: Outcome)
    requires all == before + [last] && writers' == writers + [last.writer]
          && entries' == entries + Stamp(last.ops, last.first)
    requires GroupEffect(served, before, writers, entries, last.logged, last.status)
    ensures GroupEffect(served, all, writers', entries', last.logged, last.status)
  {
    EffectGrows(served, before, writers, entries, last);
  }

  lemma {:induction false} GroupNumbered(served: seq<Outcome>, queue: seq<Writer>, n: nat, first0: nat, first: nat,
                                         logged: bool, synced: bool, status: Status)
    requires n <= |queue| && Numbered(served, first0, first)
    ensures Numbered(served + Outcomes(queue, n, first, logged, synced, status), first0, first + |AllOps(queue[..n])|)
    decreases n
  {
    if n == 0 {
      assert served + [] == served && AllOps(queue[..0]) == [];
    } else {
      GroupNumbered(served, queue, n - 1, first0, first, logged, synced, status);
      LastOfGroup(served, queue, n, first, logged, synced, status);
    }
  }

  lemma {:induction false} GroupIsHonest(queue: seq<Writer>, n: nat, first: nat, logged: bool, synced: bool,
                                         status: Status)
    requires n <= |queue| && (status.Ok? ==> logged)
    requires status.Ok? ==> forall i :: 0 <= i < n ==> queue[i].sync ==> synced
    ensures forall o :: o in Outcomes(queue, n, first, logged, synced, status) ==> Honest(o)
    decreases n
  {
    if n > 0 {
      GroupIsHonest(queue, n - 1, first, logged, synced, status);
    }
  }

  lemma GroupKeepsInv(s: State, t: State, n: nat, logged: bool, synced: bool, status: Status, first: nat)
    requires Inv(s, first) && n <= |s.queue|
    requires var ops := AllOps(s.queue[..n]);
             var outcomes := Outcomes(s.queue, n, s.lastSequence + 1, logged, synced, status);
             && t.queue == s.queue[n..] && t.group == None && t.arrived == s.arrived && t.served == s.served + outcomes
             && t.lastSequence == s.lastSequence + |ops|
             && t.log == (if logged then s.log + Stamp(ops, s.lastSequence + 1) else s.log)
             && t.mem == (if status.Ok? then s.mem + Stamp(ops, s.lastSequence + 1) else s.mem)
             && forall o :: o in outcomes ==> Honest(o)
    ensures Inv(t, first)
  {
    GroupServed(s.served, s.queue, n, s.lastSequence + 1, logged, synced, status);
    GroupNumbered(s.served, s.queue, n, first, s.lastSequence + 1, logged, synced, status);
    Regroups(Writers(s.served), s.queue, n);
    AllHonest(s.served, Outcomes(s.queue, n, s.lastSequence + 1, logged, synced, status));
  }

  lemma WriteGroupKeepsInv(s: State, logged: bool, synced: bool, first: nat)
    requires Inv(s, first) && Enabled(s, WriteGroup(logged, synced))
    ensures Inv(Step(s, WriteGroup(logged, synced)), first)
  {
    var n, sync := s.group.value.n, s.queue[0].sync;
    var status := if logged && (sync ==> synced) then Ok else Failed;
    GroupIsHonest(s.queue, n, s.lastSequence + 1, logged, sync && synced, status);
    GroupKeepsInv(s, Step(s, WriteGroup(logged, synced)), n, logged, sync && synced, status, first);
  }

  lemma Regroups(done: seq<Writer>, queue: seq<Writer>, n: nat)
    requires n <= |queue|
    ensures done + queue == done + queue[..n] + queue[n..]
  {
  }

  lemma AllHonest(served: seq<Outcome>, outcomes: seq<Outcome>)
    requires forall i :: 0 <= i < |served| ==> Honest(served[i])
    requires forall o :: o in outcomes ==> Honest(o)
    ensures forall i :: 0 <= i < |served + outcomes| ==> Honest((served + outcomes)[i])
  {
  }

  lemma ArriveKeepsInv(s: State, w: Writer, first: nat)
    requires Inv(s, first) && Enabled(s, Arrive(w))
    ensures Inv(Step(s, Arrive(w)), first)
  {
    var t := Step(s, Arrive(w));
    assert Writers(s.served) + (s.queue + [w]) == Writers(s.served) + s.queue + [w];
    if s.group.Some? {
      assert t.queue[..s.group.value.n] == s.queue[..s.group.value.n];
    }
  }

  /** Every step keeps the invariant. */
  lemma StepKeepsInv(s: State, a: Action, first: nat)
    requires Inv(s, first) && Enabled(s, a)
    ensures Inv(Step(s, a), first)
  {
    match a
    case Arrive(w) => ArriveKeepsInv(s, w, first);
    case Refuse =>
      OneMoreServed(s, Step(s, a), Outcome(s.queue[0], [], s.lastSequence + 1, false, false, Failed), first);
    case ServeEmpty =>
      OneMoreServed(s, Step(s, a), Outcome(s.queue[0], [], s.lastSequence + 1, false, false, Ok), first);
    case BuildGroup(n) =>
      forall i | 0 <= i < n ensures s.queue[i].sync ==> s.queue[0].sync {
        assert i > 0 ==> Joins(s.queue, i);
      }
    case WriteGroup(logged, synced) => WriteGroupKeepsInv(s, logged, synced, first);
  }

  // ------------------------------------------------------ what the calls get

  /** The leader's record was written, and its sync was made if it asked for one. */
  predicate Succeeds(s: State, logged: bool, synced: bool)
    requires s.queue != []
  {
    logged && (s.queue[0].sync ==> synced)
  }

  lemma {:induction false} OutcomeAt(queue: seq<Writer>, n: nat, first: nat, logged: bool, synced: bool,
                                     status: Status, k: nat)
    requires k < n <= |queue|
    ensures Outcomes(queue, n, first, logged, synced, status)[k]
         == Outcome(queue[k], Ops(queue[k]), first + |AllOps(queue[..k])|, logged, synced, status)
    decreases n
  {
    if k < n - 1 {
      OutcomeAt(queue, n - 1, first, logged, synced, status, k);
    }
  }

  /** All writers of the group are served, in order: with success if and only if the record was logged and
      the sync that the leader asked for was made. */
  lemma GroupGetsStatus(s: State, logged: bool, synced: bool, first: nat, k: nat)
    requires Inv(s, first) && Enabled(s, WriteGroup(logged, synced)) && k < s.group.value.n
    ensures var t := Step(s, WriteGroup(logged, synced));
            && |t.served| == |s.served| + s.group.value.n && t.served[..|s.served|] == s.served
            && var o := t.served[|s.served| + k];
               && o.writer == s.queue[k] && o.ops == Ops(s.queue[k])
               && o.first == s.lastSequence + 1 + |AllOps(s.queue[..k])|
               && o.logged == logged && (o.status.Ok? <==> Succeeds(s, logged, synced))
  {
    var n, sync := s.group.value.n, s.queue[0].sync;
    OutcomeAt(s.queue, n, s.lastSequence + 1, logged, sync && synced,
              if logged && (sync ==> synced) then Ok else Failed, k);
  }

  /** The operations stand one after the other in the list from `lo` on. */
  ghost predicate StandsAt(list: seq<Entry>, lo: nat, entries: seq<Entry>) {
    lo + |entries| <= |list| && list[lo..lo + |entries|] == entries
  }

  /** The operations of the k-th writer were added to the list, numbered after those before it. */
  ghost predicate Landed(s: State, list: seq<Entry>, after: seq<Entry>, k: nat)
    requires k < |s.queue|
  {
    var before := |AllOps(s.queue[..k])|;
    list <= after
    && StandsAt(after, |list| + before, Stamp(Ops(s.queue[k]), s.lastSequence + 1 + before))
  }

  /** Then the operations of each of them stand in the memtable, under the numbers that follow the last one
      in queue order; otherwise the memtable is as it was. */
  lemma GroupIsInserted(s: State, logged: bool, synced: bool, first: nat, k: nat)
    requires Inv(s, first) && Enabled(s, WriteGroup(logged, synced)) && k < s.group.value.n
    ensures var t := Step(s, WriteGroup(logged, synced));
            if Succeeds(s, logged, synced) then Landed(s, s.mem, t.mem, k) else t.mem == s.mem
  {
    LandsBehind(s, s.group.value.n, k, s.mem);
    GroupEntries(s, logged, synced, first);
  }

  /** And in the log if the record was written.  Writes fail from then on if and only if a sync failed. */
  lemma GroupIsLogged(s: State, logged: bool, synced: bool, first: nat, k: nat)
    requires Inv(s, first) && Enabled(s, WriteGroup(logged, synced)) && k < s.group.value.n
    ensures var t := Step(s, WriteGroup(logged, synced));
            && (if logged then Landed(s, s.log, t.log, k) else t.log == s.log)
            && (t.failing <==> s.failing || (logged && s.queue[0].sync && !synced))
            && t.queue == s.queue[s.group.value.n..]
  {
    LandsBehind(s, s.group.value.n, k, s.log);
    GroupEntries(s, logged, synced, first);
  }

  lemma GroupEntries(s: State, logged: bool, synced: bool, first: nat)
    requires Inv(s, first) && Enabled(s, WriteGroup(logged, synced))
    ensures var t := Step(s, WriteGroup(logged, synced));
            var entries := Stamp(AllOps(s.queue[..s.group.value.n]), s.lastSequence + 1);
            && t.mem == (if Succeeds(s, logged, synced) then s.mem + entries else s.mem)
            && t.log == if logged then s.log + entries else s.log
  {
  }

  lemma LandsBehind(s: State, n: nat, k: nat, list: seq<Entry>)
    requires k < n <= |s.queue|
    ensures Landed(s, list, list + Stamp(AllOps(s.queue[..n]), s.lastSequence + 1), k)
  {
    GroupPart(s.queue, n, k, s.lastSequence + 1, list);
  }

  lemma GroupPart(queue: seq<Writer>, n: nat, k: nat, first: nat, list: seq<Entry>)
    requires k < n <= |queue|
    ensures var before := |AllOps(queue[..k])|;
            StandsAt(list + Stamp(AllOps(queue[..n]), first), |list| + before, Stamp(Ops(queue[k]), first + before))
  {
    var before := |AllOps(queue[..k])|;
    OpsStandInGroup(queue, n, k);
    StampPart(AllOps(queue[..n]), first, before, Ops(queue[k]));
    StandsBehind(list, Stamp(AllOps(queue[..n]), first), before, Stamp(Ops(queue[k]), first + before));
  }

  lemma {:induction false} OpsStandInGroup(queue: seq<Writer>, n: nat, k: nat)
    requires k < n <= |queue|
    ensures var lo, ops := |AllOps(queue[..k])|, Ops(queue[k]);
            lo + |ops| <= |AllOps(queue[..n])| && AllOps(queue[..n])[lo..lo + |ops|] == ops
    decreases n
  {
    assert queue[..n][..n - 1] == queue[..n - 1];
    if k < n - 1 { OpsStandInGroup(queue, n - 1, k); }
  }

  lemma StampPart(ops: seq<Op>, first: nat, lo: nat, part: seq<Op>)
    requires lo + |part| <= |ops| && ops[lo..lo + |part|] == part
    ensures StandsAt(Stamp(ops, first), lo, Stamp(part, first + lo))
  {
    var all, some := Stamp(ops, first)[lo..lo + |part|], Stamp(part, first + lo);
    forall i | 0 <= i < |part| ensures all[i] == some[i] {
      assert ops[lo + i] == part[i];
    }
  }

  lemma StandsBehind(before: seq<Entry>, entries: seq<Entry>, lo: nat, part: seq<Entry>)
    requires StandsAt(entries, lo, part)
    ensures StandsAt(before + entries, |before| + lo, part)
  {
  }

  /** The action is one that gives the writer it serves first a failure. */
  ghost predicate Fails(s: State, a: Action) {
    match a
    case Refuse => true
    case WriteGroup(logged, synced) => s.queue != [] && !Succeeds(s, logged, synced)
    case _ => false
  }

  /** A step serves its writers all with success or all without, and fails them only if it must. */
  lemma StepServes(s: State, a: Action, first: nat, k: nat)
    requires Inv(s, first) && Enabled(s, a) && |s.served| <= k < |Step(s, a).served|
    ensures Step(s, a).served[k].status.Failed? <==> Fails(s, a)
    ensures Step(s, a).served[..|s.served|] == s.served
  {
    if a.WriteGroup? {
      GroupGetsStatus(s, a.logged, a.synced, first, k - |s.served|);
    }
  }

  lemma StepKeepsServed(s: State, a: Action, first: nat)
    requires Inv(s, first) && Enabled(s, a)
    ensures s.served <= Step(s, a).served
  {
  }

  // --------------------------------------------------------------------- runs

  ghost predicate Initial(s: State) {
    s.queue == [] && s.log == [] && s.mem == [] && s.group == None && !s.failing && s.arrived == [] && s.served == []
  }

  ghost predicate IsRun(run: seq<State>, actions: seq<Action>) {
    && |run| == |actions| + 1 && Initial(run[0])
    && forall i :: 0 <= i < |actions| ==> Enabled(run[i], actions[i]) && run[i + 1] == Step(run[i], actions[i])
  }

  lemma {:induction false} RunKeepsInv(run: seq<State>, actions: seq<Action>, i: nat)
    requires IsRun(run, actions) && i < |run|
    ensures Inv(run[i], run[0].lastSequence + 1)
    decreases i
  {
    if i == 0 {
      assert Writers([]) + [] == [];
    } else {
      RunKeepsInv(run, actions, i - 1);
      StepKeepsInv(run[i - 1], actions[i - 1], run[0].lastSequence + 1);
    }
  }

  /** Where the operations of the call at `i` begin among those of successful calls. */
  ghost function MemStart(served: seq<Outcome>, i: nat): nat
    requires i <= |served|
  {
    |Inserted(served[..i])|
  }

  lemma {:induction false} InsertedAt(served: seq<Outcome>, i: nat)
    requires i < |served| && served[i].status.Ok?
    ensures var lo, n := MemStart(served, i), |served[i].ops|;
            lo + n <= |Inserted(served)| && Inserted(served)[lo..lo + n] == Stamp(served[i].ops, served[i].first)
    decreases |served|
  {
    var init := served[..|served| - 1];
    if i < |init| {
      InsertedAt(init, i);
      assert init[..i] == served[..i];
      var lo, n := MemStart(served, i), |served[i].ops|;
      assert Inserted(served)[..|Inserted(init)|] == Inserted(init);
      assert Inserted(served)[lo..lo + n] == Inserted(init)[lo..lo + n];
    } else {
      assert served[..i] == init;
    }
  }

  /** Where the operations of the call at `i` begin in the log. */
  ghost function LogStart(served: seq<Outcome>, i: nat): nat
    requires i <= |served|
  {
    |Logged(served[..i])|
  }

  lemma {:induction false} LoggedAt(served: seq<Outcome>, i: nat)
    requires i < |served| && served[i].logged
    ensures var lo, n := LogStart(served, i), |served[i].ops|;
            lo + n <= |Logged(served)| && Logged(served)[lo..lo + n] == Stamp(served[i].ops, served[i].first)
    decreases |served|
  {
    var init := served[..|served| - 1];
    if i < |init| {
      LoggedAt(init, i);
      assert init[..i] == served[..i];
      var lo, n := LogStart(served, i), |served[i].ops|;
      assert Logged(served)[..|Logged(init)|] == Logged(init);
      assert Logged(served)[lo..lo + n] == Logged(init)[lo..lo + n];
    } else {
      assert served[..i] == init;
    }
  }

  /** The entries carry strictly growing numbers, all below the next one. */
  ghost predicate AscendsBelow(mem: seq<Entry>, next: nat) {
    && (forall i, j :: 0 <= i < j < |mem| ==> mem[i].key.sequence < mem[j].key.sequence)
    && (forall i :: 0 <= i < |mem| ==> mem[i].key.sequence < next)
  }

  lemma StampAscends(mem: seq<Entry>, ops: seq<Op>, first: nat)
    requires AscendsBelow(mem, first)
    ensures AscendsBelow(mem + Stamp(ops, first), first + |ops|) && AscendsBelow(mem, first + |ops|)
  {
  }

  /** What was logged and what was inserted carries strictly growing numbers, all below the next one. */
  lemma {:induction false} ServedAscends(served: seq<Outcome>, first: nat, next: nat)
    requires Numbered(served, first, next)
    ensures AscendsBelow(Logged(served), next) && AscendsBelow(Inserted(served), next)
    decreases |served|
  {
    if served != [] {
      var init, last := served[..|served| - 1], served[|served| - 1];
      ServedAscends(init, first, last.first);
      StampAscends(Logged(init), last.ops, last.first);
      StampAscends(Inserted(init), last.ops, last.first);
      assert Logged(init) + [] == Logged(init) && Inserted(init) + [] == Inserted(init);
    }
  }

  /** In every run: a call with a batch that returned success had all its operations logged and inserted
      under consecutive numbers of its own; the log holds what the logged calls wrote and the memtable what
      the successful ones inserted, call after call in queue order, each number once; and a call that asked
      for a sync got it. */
  lemma EveryWriteCountsOnce(run: seq<State>, actions: seq<Action>, i: nat, k: nat)
    requires IsRun(run, actions) && i < |run| && k < |run[i].served|
    requires run[i].served[k].status.Ok? && run[i].served[k].writer.batch.Some?
    ensures var s, o := run[i], run[i].served[k];
            && o.writer in s.arrived && o.logged && (o.writer.sync ==> o.synced)
            && (var lo, hi := LogStart(s.served, k), LogStart(s.served, k) + |o.writer.batch.value|;
                hi <= |s.log| && s.log[lo..hi] == Stamp(o.writer.batch.value, o.first))
            && (var lo, hi := MemStart(s.served, k), MemStart(s.served, k) + |o.writer.batch.value|;
                hi <= |s.mem| && s.mem[lo..hi] == Stamp(o.writer.batch.value, o.first))
            && s.log == Logged(s.served) && AscendsBelow(s.log, s.lastSequence + 1)
            && s.mem == Inserted(s.served) && AscendsBelow(s.mem, s.lastSequence + 1)
  {
    var s, o := run[i], run[i].served[k];
    RunKeepsInv(run, actions, i);
    assert Honest(o);
    LoggedAt(s.served, k);
    InsertedAt(s.served, k);
    ServedAscends(s.served, run[0].lastSequence + 1, s.lastSequence + 1);
    assert Writers(s.served)[k] == o.writer;
    assert s.arrived[k] == o.writer;
  }

  /** Calls return in the order in which they queued up, and none is lost. */
  lemma QueueOrder(run: seq<State>, actions: seq<Action>, i: nat)
    requires IsRun(run, actions) && i < |run|
    ensures run[i].arrived == Writers(run[i].served) + run[i].queue
  {
    RunKeepsInv(run, actions, i);
  }

  /** In every run: a call that has returned was served by one of the actions, and it failed if and only if
      that action refused it, could not log its group, or could not make a sync that its leader asked for. */
  lemma {:induction false} FailuresHaveCauses(run: seq<State>, actions: seq<Action>, i: nat, k: nat)
    returns (j: nat)
    requires IsRun(run, actions) && i < |run| && k < |run[i].served|
    ensures j < i && |run[j].served| <= k < |run[j + 1].served| && run[j + 1].served[k] == run[i].served[k]
    ensures run[i].served[k].status.Failed? <==> Fails(run[j], actions[j])
    decreases i
  {
    RunKeepsInv(run, actions, i - 1);
    if k < |run[i - 1].served| {
      j := FailuresHaveCauses(run, actions, i - 1, k);
      StepKeepsServed(run[i - 1], actions[i - 1], run[0].lastSequence + 1);
    } else {
      j := i - 1;
      StepServes(run[j], actions[j], run[0].lastSequence + 1, k);
    }
  }

  /** A failed sync leaves no group behind. */
  lemma {:induction false} FailingHasNoGroup(run: seq<State>, actions: seq<Action>, i: nat)
    requires IsRun(run, actions) && i < |run|
    ensures run[i].failing ==> run[i].group == None
    decreases i
  {
    if i > 0 { FailingHasNoGroup(run, actions, i - 1); }
  }

  /** Once a sync has failed, nothing is logged or inserted any more, and every call fails. */
  lemma {:induction false} NothingAfterFailedSync(run: seq<State>, actions: seq<Action>, i: nat, j: nat)
    requires IsRun(run, actions) && i <= j < |run| && run[i].failing
    ensures run[j].failing && run[j].mem == run[i].mem && run[j].log == run[i].log
    ensures run[i].served <= run[j].served
    ensures forall k :: |run[i].served| <= k < |run[j].served| ==> run[j].served[k].status.Failed?
    decreases j
  {
    if i < j {
      NothingAfterFailedSync(run, actions, i, j - 1);
      FailingHasNoGroup(run, actions, j - 1);
    }
  }

  /** The writer at the front can always be served: with success, unless a sync has failed before. */
  lemma FrontCanBeServed(s: State, n: nat, first: nat) returns (actions: seq<Action>, t: State)
    requires Inv(s, first) && s.queue != [] && s.group == None
    requires s.queue[0].batch.Some? ==> IsGroup(s.queue, n)
    ensures 0 < |actions| <= 2 && Enabled(s, actions[0])
    ensures |actions| == 1 ==> t == Step(s, actions[0])
    ensures |actions| == 2 ==> Enabled(Step(s, actions[0]), actions[1]) && t == Step(Step(s, actions[0]), actions[1])
    ensures |t.served| > |s.served| && t.served[|s.served|].writer == s.queue[0]
    ensures t.served[|s.served|].status.Failed? <==> s.failing
  {
    if s.failing {
      actions, t := [Refuse], Step(s, Refuse);
    } else if s.queue[0].batch == None {
      actions, t := [ServeEmpty], Step(s, ServeEmpty);
    } else {
      var built := Step(s, BuildGroup(n));
      StepKeepsInv(s, BuildGroup(n), first);
      GroupGetsStatus(built, true, true, first, 0);
      actions, t := [BuildGroup(n), WriteGroup(true, true)], Step(built, WriteGroup(true, true));
    }
  }
}
