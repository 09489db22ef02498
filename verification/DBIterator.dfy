/** The iterator that clients see (db/db_iter.cc): it collapses the versions of each user key into the
    one visible at its sequence number, and hides deleted keys. */
module DBIterator {
  import opened Wrappers
  import opened InternalKeys
  import opened MultiVersion
  import opened Iterators

  // ------------------------------------------------------- the map to be shown

  ghost function Entries(run: seq<Entry>): set<Entry> { set e | e in run }

  /** What a client reads for a user key. */
  ghost function View(run: seq<Entry>, s: nat, u: UserKey): Option<string> {
    Meaning(Read(Entries(run), u, s))
  }

  /** The least key of the view from `low` on, or above it. */
  ghost predicate IsFirst(run: seq<Entry>, s: nat, low: UserKey, strict: bool, k: UserKey) {
    && View(run, s, k).Some? && low <= k && (strict ==> low < k)
    && forall u :: View(run, s, u).Some? && low <= u && (strict ==> low < u) ==> k <= u
  }

  /** The greatest key of the view below `high`. */
  ghost predicate IsLast(run: seq<Entry>, s: nat, high: UserKey, k: UserKey) {
    && View(run, s, k).Some? && k < high
    && forall u :: View(run, s, u).Some? && u < high ==> u <= k
  }

  // ------------------------------------------------------ the same on the list

  /** The entry at `i` is the one a snapshot sees of its user key, and no tombstone. */
  ghost predicate Shown(run: seq<Entry>, s: nat, i: nat) {
    && i < |run| && run[i].key.sequence <= s && run[i].key.kind.Value?
    && forall j :: 0 <= j < i && run[j].key.user == run[i].key.user ==> run[j].key.sequence > s
  }

  ghost predicate Listable(run: seq<Entry>) {
    Sorted(run) && Distinct(Entries(run))
  }

  lemma SortedUsers(run: seq<Entry>, i: nat, j: nat)
    requires Sorted(run) && i <= j < |run|
    ensures run[i].key.user <= run[j].key.user
    ensures run[i].key.user == run[j].key.user ==> run[i].key.sequence >= run[j].key.sequence
  {
  }

  lemma ShownIsNewest(run: seq<Entry>, s: nat, i: nat)
    requires Listable(run) && i < |run| && run[i].key.sequence <= s
    requires forall j :: 0 <= j < i && run[j].key.user == run[i].key.user ==> run[j].key.sequence > s
    ensures Read(Entries(run), run[i].key.user, s) == Some(run[i])
  {
    forall x | x in Entries(run) && Sees(x, run[i].key.user, s) ensures x.key.sequence <= run[i].key.sequence {
      var j :| 0 <= j < |run| && run[j] == x;
      if i <= j { SortedUsers(run, i, j); }
    }
    assert IsNewest(Entries(run), run[i].key.user, s, run[i]);
    ReadSome(Entries(run), run[i].key.user, s, run[i]);
  }

  /** The entries shown are exactly the view. */
  lemma ShownIsViewed(run: seq<Entry>, s: nat, i: nat)
    requires Listable(run) && Shown(run, s, i)
    ensures View(run, s, run[i].key.user) == Some(run[i].value)
  {
    ShownIsNewest(run, s, i);
  }

  lemma ViewedIsShown(run: seq<Entry>, s: nat, u: UserKey) returns (i: nat)
    requires Listable(run) && View(run, s, u).Some?
    ensures Shown(run, s, i) && run[i].key.user == u && View(run, s, u) == Some(run[i].value)
  {
    ReadNone(Entries(run), u, s);
    var x :| x in Entries(run) && Sees(x, u, s);
    i :| 0 <= i < |run| && run[i] == x;
    while exists j :: 0 <= j < i && run[j].key.user == u && run[j].key.sequence <= s
      invariant i < |run| && Sees(run[i], u, s)
      decreases i
    {
      var j :| 0 <= j < i && run[j].key.user == u && run[j].key.sequence <= s;
      i := j;
    }
    ShownIsNewest(run, s, i);
  }

  /** No key of the view lies at index `i` or after it and below `k`, and so on: searches on the list
      are searches on the view. */
  lemma FirstShown(run: seq<Entry>, s: nat, low: UserKey, strict: bool, i: nat)
    requires Listable(run) && Shown(run, s, i) && low <= run[i].key.user && (strict ==> low < run[i].key.user)
    requires forall j :: 0 <= j < i && Shown(run, s, j) ==> run[j].key.user < low || (strict && run[j].key.user == low)
    ensures IsFirst(run, s, low, strict, run[i].key.user)
  {
    ShownIsViewed(run, s, i);
    forall u | View(run, s, u).Some? && low <= u && (strict ==> low < u) ensures run[i].key.user <= u {
      var j := ViewedIsShown(run, s, u);
      if i < j { SortedUsers(run, i, j); }
    }
  }

  lemma NoneShown(run: seq<Entry>, s: nat, low: UserKey, strict: bool)
    requires Listable(run)
    requires forall j :: 0 <= j < |run| && Shown(run, s, j) ==>
               run[j].key.user < low || (strict && run[j].key.user == low)
    ensures forall u :: View(run, s, u).Some? ==> u < low || (strict && u == low)
  {
    forall u | View(run, s, u).Some? ensures u < low || (strict && u == low) {
      var j := ViewedIsShown(run, s, u);
    }
  }

  lemma LastShown(run: seq<Entry>, s: nat, high: UserKey, i: nat)
    requires Listable(run) && Shown(run, s, i) && run[i].key.user < high
    requires forall j :: i < j < |run| && Shown(run, s, j) ==> high <= run[j].key.user
    ensures IsLast(run, s, high, run[i].key.user)
  {
    ShownIsViewed(run, s, i);
    forall u | View(run, s, u).Some? && u < high ensures u <= run[i].key.user {
      var j := ViewedIsShown(run, s, u);
      if j <= i { SortedUsers(run, j, i); }
    }
  }

  // --------------------------------------------------------- scanning forward

  /** What can be seen before `i` has smaller user keys than what follows, but for a key to skip. */
  ghost predicate Passed(run: seq<Entry>, s: nat, i: nat, skipping: bool, key: UserKey) {
    forall j, k :: 0 <= j < i <= k < |run| && run[j].key.sequence <= s ==>
      run[j].key.user < run[k].key.user || (skipping && run[k].key.user <= key)
  }

  /** What can be seen from `i` on is not below the key to skip. */
  ghost predicate Ahead(run: seq<Entry>, s: nat, i: nat, key: UserKey) {
    forall k :: i <= k < |run| && run[k].key.sequence <= s ==> key <= run[k].key.user
  }

  /** No entry from `start` up to `i` is to be shown, but for the key to skip. */
  ghost predicate NoneBetween(run: seq<Entry>, s: nat, start: nat, i: nat, skip: bool, key: UserKey) {
    forall k :: start <= k < i && Shown(run, s, k) ==> skip && run[k].key.user == key
  }

  /** A key is skipped because the caller said so, or because of a tombstone passed. */
  ghost predicate Skips(run: seq<Entry>, s: nat, i: nat, skip0: bool, key0: UserKey, skipping: bool, key: UserKey) {
    skipping ==> (skip0 && key == key0) || exists j :: 0 <= j < i && j < |run| && Sees(run[j], key, s)
  }

  /** A forward scan from `start` has reached `i`. */
  ghost predicate Scanned(run: seq<Entry>, s: nat, start: nat, i: nat, skip0: bool, key0: UserKey, skipping: bool,
                          key: UserKey)
  {
    && start <= i <= |run| && (skip0 ==> skipping && key0 <= key)
    && Passed(run, s, i, skipping, key) && (skipping ==> Ahead(run, s, i, key))
    && NoneBetween(run, s, start, i, skip0, key0) && Skips(run, s, i, skip0, key0, skipping, key)
  }

  lemma PassUnseen(run: seq<Entry>, s: nat, i: nat, skipping: bool, key: UserKey)
    requires Sorted(run) && i < |run| && Passed(run, s, i, skipping, key)
    requires run[i].key.sequence > s || (skipping && run[i].key.user <= key)
    ensures Passed(run, s, i + 1, skipping, key)
  {
    forall j, k | 0 <= j < i + 1 <= k < |run| && run[j].key.sequence <= s
      ensures run[j].key.user < run[k].key.user || (skipping && run[k].key.user <= key)
    {
      if j == i { SortedUsers(run, i, k); }
    }
  }

  lemma PassDeleted(run: seq<Entry>, s: nat, i: nat, skipping: bool, key: UserKey)
    requires Sorted(run) && i < |run| && Passed(run, s, i, skipping, key) && (skipping ==> key <= run[i].key.user)
    ensures Passed(run, s, i + 1, true, run[i].key.user) && Ahead(run, s, i + 1, run[i].key.user)
  {
    forall k | i <= k < |run| ensures run[i].key.user <= run[k].key.user {
      SortedUsers(run, i, k);
    }
  }

  lemma HiddenIsSkipped(run: seq<Entry>, s: nat, start: nat, i: nat, skip0: bool, key0: UserKey, skipping: bool,
                        key: UserKey)
    requires i < |run| && run[i].key.sequence <= s && Scanned(run, s, start, i, skip0, key0, skipping, key)
    requires skipping && run[i].key.user <= key
    ensures Shown(run, s, i) ==> skip0 && run[i].key.user == key0
  {
  }

  lemma DeletedStep(run: seq<Entry>, s: nat, start: nat, i: nat, skip0: bool, key0: UserKey, skipping: bool,
                    key: UserKey)
    requires Listable(run) && i < |run| && Scanned(run, s, start, i, skip0, key0, skipping, key)
    requires run[i].key.sequence <= s && run[i].key.kind.Deletion?
    ensures Scanned(run, s, start, i + 1, skip0, key0, true, run[i].key.user)
  {
    NoneHere(run, s, start, i, skip0, key0);
    PassDeleted(run, s, i, skipping, key);
    assert Sees(run[i], run[i].key.user, s);
    assert Skips(run, s, i + 1, skip0, key0, true, run[i].key.user);
  }

  lemma UnseenStep(run: seq<Entry>, s: nat, start: nat, i: nat, skip0: bool, key0: UserKey, skipping: bool,
                   key: UserKey)
    requires Listable(run) && i < |run| && Scanned(run, s, start, i, skip0, key0, skipping, key)
    requires run[i].key.sequence > s
    ensures Scanned(run, s, start, i + 1, skip0, key0, skipping, key)
  {
    NoneHere(run, s, start, i, skip0, key0);
    PassUnseen(run, s, i, skipping, key);
    GoOn(run, s, start, i, skip0, key0, skipping, key);
  }

  lemma NoneHere(run: seq<Entry>, s: nat, start: nat, i: nat, skip: bool, key: UserKey)
    requires i < |run| && NoneBetween(run, s, start, i, skip, key)
    requires Shown(run, s, i) ==> skip && run[i].key.user == key
    ensures NoneBetween(run, s, start, i + 1, skip, key)
  {
  }

  /** A scan that passes an entry without remembering it. */
  lemma GoOn(run: seq<Entry>, s: nat, start: nat, i: nat, skip0: bool, key0: UserKey, skipping: bool, key: UserKey)
    requires i < |run| && Scanned(run, s, start, i, skip0, key0, skipping, key)
    requires Passed(run, s, i + 1, skipping, key) && NoneBetween(run, s, start, i + 1, skip0, key0)
    ensures Scanned(run, s, start, i + 1, skip0, key0, skipping, key)
  {
    assert skipping ==> Ahead(run, s, i + 1, key);
    assert Skips(run, s, i + 1, skip0, key0, skipping, key);
  }

  lemma HiddenStep(run: seq<Entry>, s: nat, start: nat, i: nat, skip0: bool, key0: UserKey, skipping: bool,
                   key: UserKey)
    requires Listable(run) && i < |run| && Scanned(run, s, start, i, skip0, key0, skipping, key)
    requires run[i].key.sequence <= s && skipping && run[i].key.user <= key
    ensures Scanned(run, s, start, i + 1, skip0, key0, skipping, key)
  {
    HiddenIsSkipped(run, s, start, i, skip0, key0, skipping, key);
    NoneHere(run, s, start, i, skip0, key0);
    PassUnseen(run, s, i, skipping, key);
    GoOn(run, s, start, i, skip0, key0, skipping, key);
  }

  /** An entry that can be seen, is no tombstone and is not skipped is to be shown. */
  lemma ShownStep(run: seq<Entry>, s: nat, start: nat, i: nat, skip0: bool, key0: UserKey, skipping: bool, key: UserKey)
    requires i < |run| && Scanned(run, s, start, i, skip0, key0, skipping, key)
    requires run[i].key.sequence <= s && run[i].key.kind.Value? && !(skipping && run[i].key.user <= key)
    ensures Shown(run, s, i) && (skip0 ==> key0 < run[i].key.user)
  {
  }

  /** What one entry means to a scan: whether it is shown, and what is skipped from then on. */
  datatype Decision = Decision(found: bool, skipping: bool, key: UserKey)

  function Decide(k: InternalKey, s: nat, skipping: bool, key: UserKey): Decision {
    if k.sequence > s then Decision(false, skipping, key)
    else if k.kind.Deletion? then Decision(false, true, k.user)
    else Decision(!(skipping && k.user <= key), skipping, key)
  }

  lemma DecideIsRight(run: seq<Entry>, s: nat, start: nat, i: nat, skip0: bool, key0: UserKey, skipping: bool,
                      key: UserKey)
    requires Listable(run) && i < |run| && Scanned(run, s, start, i, skip0, key0, skipping, key)
    ensures var d := Decide(run[i].key, s, skipping, key);
            if d.found then Shown(run, s, i) && (skip0 ==> key0 < run[i].key.user)
            else Scanned(run, s, start, i + 1, skip0, key0, d.skipping, d.key)
  {
    if run[i].key.sequence > s {
      UnseenStep(run, s, start, i, skip0, key0, skipping, key);
    } else if run[i].key.kind.Deletion? {
      DeletedStep(run, s, start, i, skip0, key0, skipping, key);
    } else if skipping && run[i].key.user <= key {
      HiddenStep(run, s, start, i, skip0, key0, skipping, key);
    } else {
      ShownStep(run, s, start, i, skip0, key0, skipping, key);
    }
  }

  /** After a scan that skips the key shown at `from`, nothing before its end has a greater key. */
  lemma BehindIsSkipped(run: seq<Entry>, s: nat, start: nat, from: nat, end: nat)
    requires Sorted(run) && start <= from < |run| && NoneBetween(run, s, start, end, true, run[from].key.user)
    ensures forall j :: 0 <= j < end && j < |run| && Shown(run, s, j) ==> run[j].key.user <= run[from].key.user
  {
    forall j | 0 <= j < end && j < |run| && Shown(run, s, j) ensures run[j].key.user <= run[from].key.user {
      if j < start { SortedUsers(run, j, from); }
    }
  }

  /** A scan that is to skip the key shown at `from` may start anywhere behind the last smaller key
      that can be seen. */
  lemma ScanStarts(run: seq<Entry>, s: nat, start: nat, from: nat)
    requires Listable(run) && Shown(run, s, from) && start <= from
    requires forall j :: start <= j < from ==> run[j].key.sequence > s
    ensures Scanned(run, s, start, start, true, run[from].key.user, true, run[from].key.user)
  {
    var key := run[from].key.user;
    forall j, k | 0 <= j < start <= k < |run| && run[j].key.sequence <= s
      ensures run[j].key.user < run[k].key.user || run[k].key.user <= key
    {
      if k <= from { SortedUsers(run, k, from); } else { SortedUsers(run, from, k); }
      SortedUsers(run, j, from);
    }
    forall k | start <= k < |run| && run[k].key.sequence <= s ensures key <= run[k].key.user {
      SortedUsers(run, from, k);
    }
  }

  /** A scan for keys from `target` on may start at `i`. */
  ghost predicate Starts(run: seq<Entry>, s: nat, target: UserKey, i: nat) {
    && i <= |run| && Scanned(run, s, i, i, false, 0, false, 0)
    && (forall j :: 0 <= j < i && Shown(run, s, j) ==> run[j].key.user < target)
    && (forall j :: i <= j < |run| ==> target <= run[j].key.user)
  }

  lemma SeekStarts(run: seq<Entry>, s: nat, target: UserKey, i: nat)
    requires Listable(run) && IsLowerBound(run, LookupKey(target, s), i)
    ensures Starts(run, s, target, i)
  {
  }

  lemma FirstIsLow(run: seq<Entry>, s: nat, low: UserKey)
    requires Listable(run) && (run != [] ==> low == run[0].key.user)
    ensures Starts(run, s, low, 0)
    ensures forall u :: View(run, s, u).Some? ==> low <= u
  {
    forall j | 0 <= j < |run| ensures low <= run[j].key.user {
      SortedUsers(run, 0, j);
    }
    forall u | View(run, s, u).Some? ensures low <= u {
      var j := ViewedIsShown(run, s, u);
    }
  }

  // -------------------------------------------------------- scanning backward

  /** A backward scan from `start` has reached `i`: the last entry seen on the way is `m`, whose kind,
      key and value are remembered, and nothing behind `m` is to be shown. */
  ghost predicate ScannedBack(run: seq<Entry>, s: nat, start: int, i: int, m: int, kind: Kind, key: UserKey,
                              value: string)
  {
    && -1 <= i < m <= start + 1 <= |run|
    && (forall j :: i < j < m ==> run[j].key.sequence > s)
    && (forall j :: m < j <= start ==> !Shown(run, s, j))
    && (m == start + 1 ==> kind.Deletion?)
    && (m <= start ==> run[m].key.sequence <= s && kind == run[m].key.kind)
    && (kind.Value? ==> key == run[m].key.user && value == run[m].value)
  }

  predicate Stops(k: InternalKey, s: nat, kind: Kind, key: UserKey) {
    k.sequence <= s && kind.Value? && k.user < key
  }

  predicate Takes(k: InternalKey, s: nat, kind: Kind, key: UserKey) {
    k.sequence <= s && !(kind.Value? && k.user < key)
  }

  lemma PassBack(run: seq<Entry>, s: nat, start: int, i: nat, m: int, kind: Kind, key: UserKey, value: string)
    requires ScannedBack(run, s, start, i, m, kind, key, value) && run[i].key.sequence > s
    ensures ScannedBack(run, s, start, i - 1, m, kind, key, value)
  {
  }

  /** The entry remembered is not to be shown when a newer version of its key can be seen. */
  lemma TakeBack(run: seq<Entry>, s: nat, start: int, i: nat, m: int, kind: Kind, key: UserKey, value: string,
                 key': UserKey, value': string)
    requires Sorted(run) && ScannedBack(run, s, start, i, m, kind, key, value) && Takes(run[i].key, s, kind, key)
    requires run[i].key.kind.Value? ==> key' == run[i].key.user && value' == run[i].value
    ensures ScannedBack(run, s, start, i - 1, i, run[i].key.kind, key', value')
  {
    if m <= start {
      SortedUsers(run, i, m);
      assert !Shown(run, s, m);
    }
  }

  /** All that is to be shown from `high` on lies behind `i`. */
  ghost predicate Below(run: seq<Entry>, s: nat, i: int, high: UserKey) {
    && -1 <= i < |run|
    && (forall j :: i < j < |run| && Shown(run, s, j) ==> high <= run[j].key.user)
    && (forall j :: 0 <= j <= i ==> run[j].key.user < high)
  }

  lemma BelowCurrent(run: seq<Entry>, s: nat, i: int, at: nat)
    requires Sorted(run) && Shown(run, s, at) && -1 <= i < at
    requires forall j :: i < j < at ==> run[j].key.sequence > s
    requires i >= 0 ==> run[i].key.user < run[at].key.user
    ensures Below(run, s, i, run[at].key.user)
  {
    forall j | 0 <= j < |run| ensures j <= i ==> run[j].key.user < run[at].key.user
      ensures j >= at ==> run[at].key.user <= run[j].key.user
    {
      if j <= i { SortedUsers(run, j, i); }
      if j >= at { SortedUsers(run, at, j); }
    }
  }

  lemma PrevFound(run: seq<Entry>, s: nat, i: int, high: UserKey, valid: bool, at: nat)
    requires Listable(run) && Below(run, s, i, high) && (valid ==> at <= i && Shown(run, s, at))
    requires forall j :: (if valid then at else -1) < j <= i ==> !Shown(run, s, j)
    ensures valid ==> IsLast(run, s, high, run[at].key.user)
    ensures !valid ==> forall u :: View(run, s, u).Some? ==> high <= u
  {
    if valid {
      LastShown(run, s, high, at);
    } else {
      NoneShownBelow(run, s, high);
    }
  }

  lemma BackEnd(run: seq<Entry>, s: nat, start: int, i: int, m: int, kind: Kind, key: UserKey, value: string)
    requires Sorted(run) && ScannedBack(run, s, start, i, m, kind, key, value)
    requires i >= 0 ==> kind.Value? && run[i].key.user < key
    ensures kind.Value? ==> Shown(run, s, m)
    ensures forall j :: (if kind.Value? then m else -1) < j <= start ==> !Shown(run, s, j)
  {
    if kind.Value? {
      forall j | 0 <= j < m && run[j].key.user == run[m].key.user ensures run[j].key.sequence > s {
        if j <= i { SortedUsers(run, j, i); }
      }
    }
  }

  lemma NoneShownBelow(run: seq<Entry>, s: nat, high: UserKey)
    requires Listable(run)
    requires forall j :: 0 <= j < |run| && Shown(run, s, j) ==> high <= run[j].key.user
    ensures forall u :: View(run, s, u).Some? ==> high <= u
  {
    forall u | View(run, s, u).Some? ensures high <= u {
      var j := ViewedIsShown(run, s, u);
    }
  }

  // ------------------------------------------------------------ the iterator

  datatype Direction = Forward | Reverse

  class DBIter {
    const iter: ListIterator
    const sequence: nat
    var savedKey: UserKey
    var savedValue: string
    var direction: Direction
    var valid: bool
    ghost var at: nat          // the index of the entry shown

    /** Every entry of the range is too new to be seen. */
    ghost predicate Unseen(lo: int, hi: int)
      reads this
    {
      forall j :: 0 <= j < |iter.run| && lo <= j < hi ==> iter.run[j].key.sequence > sequence
    }

    /** The index at which the internal iterator stands, -1 when it ran off the front. */
    ghost function Standing(): int
      reads this, iter
    {
      if iter.Valid() then iter.pos else -1
    }

    ghost predicate Ok()
      reads this, iter
    {
      && iter.Ok() && Listable(iter.run)
      && (valid ==> Shown(iter.run, sequence, at))
      && (valid && direction.Forward? ==> iter.pos == at)
      && (valid && direction.Reverse? ==>
            && savedKey == iter.run[at].key.user && savedValue == iter.run[at].value
            && Standing() < at && Unseen(Standing() + 1, at)
            && (iter.Valid() ==> iter.Key().user < savedKey))
    }

    constructor (iter: ListIterator, sequence: nat)
      requires iter.Ok() && Listable(iter.run)
      ensures Ok() && !valid && this.iter == iter && this.sequence == sequence
    {
      this.iter := iter;
      this.sequence := sequence;
      direction := Forward;
      valid := false;
      savedKey, savedValue := 0, "";
    }

    function Key(): UserKey
      requires valid && (direction.Forward? ==> iter.Valid())
      reads this, iter
    {
      if direction.Forward? then iter.Key().user else savedKey
    }

    function Value(): string
      requires valid && (direction.Forward? ==> iter.Valid())
      reads this, iter
    {
      if direction.Forward? then iter.Value() else savedValue
    }

    /** What is shown is a binding of the view. */
    lemma ShowsBinding()
      requires Ok() && valid
      ensures direction.Forward? ==> iter.Valid()
      ensures View(iter.run, sequence, Key()) == Some(Value())
    {
      ShownIsViewed(iter.run, sequence, at);
    }

    method Next()
      requires Ok() && valid
      modifies this, iter
      ensures Ok() && (valid && direction.Forward? ==> iter.Valid())
      ensures valid ==> IsFirst(iter.run, sequence, old(Key()), true, Key())
      ensures !valid ==> forall u :: View(iter.run, sequence, u).Some? ==> u <= old(Key())
    {
      ghost var from := at;
      if direction.Reverse? {
        SwitchToForward();
      } else {
        savedKey := iter.Key().user;
      }
      ghost var start := iter.pos;
      ScanStarts(iter.run, sequence, start, from);
      FindNextUserEntry(true);
      BehindIsSkipped(iter.run, sequence, start, from, if valid then at else |iter.run|);
      if valid {
        FirstShown(iter.run, sequence, iter.run[from].key.user, true, at);
      } else {
        NoneShown(iter.run, sequence, iter.run[from].key.user, true);
      }
    }

    /** The internal iterator stands before the entries of this key: advance into them. */
    method SwitchToForward()
      requires Ok() && valid && direction.Reverse?
      modifies this`direction, iter
      ensures iter.Ok() && direction.Forward? && iter.pos == old(Standing()) + 1
      ensures iter.Valid()
    {
      direction := Forward;
      if !iter.Valid() {
        iter.SeekToFirst();
      } else {
        iter.Next();
      }
    }

    /** Finds the first entry to be shown, from the internal iterator's on, whose key is not skipped;
        `savedKey` holds the key to skip. */
    method FindNextUserEntry(skip: bool)
      requires iter.Ok() && Listable(iter.run) && iter.Valid() && direction.Forward?
      requires Scanned(iter.run, sequence, iter.pos, iter.pos, skip, savedKey, skip, savedKey)
      modifies this, iter
      ensures Ok() && direction.Forward?
      ensures NoneBetween(iter.run, sequence, old(iter.pos), if valid then at else |iter.run|, skip, old(savedKey))
      ensures valid ==> old(iter.pos) <= at && (skip ==> old(savedKey) < iter.run[at].key.user)
    {
      var skipping, found := skip, false;
      ghost var start, key0 := iter.pos, savedKey;
      while iter.Valid() && !found
        invariant iter.Ok() && direction.Forward?
        invariant start <= iter.pos && NoneBetween(iter.run, sequence, start, iter.pos, skip, key0)
        invariant !found ==> Scanned(iter.run, sequence, start, iter.pos, skip, key0, skipping, savedKey)
        invariant found ==> Shown(iter.run, sequence, iter.pos) && (skip ==> key0 < iter.Key().user)
        decreases !found, |iter.run| - iter.pos
      {
        DecideIsRight(iter.run, sequence, start, iter.pos, skip, key0, skipping, savedKey);
        found, skipping := Examine(skipping);
        if !found {
          iter.Next();
        }
      }
      valid := found;
      at := iter.pos;
      savedKey := 0;
    }

    /** Looks at one entry: it is found, or the scan goes on behind it. */
    method Examine(skipping: bool) returns (found: bool, skips: bool)
      requires iter.Valid()
      modifies this`savedKey
      ensures Decision(found, skips, savedKey) == Decide(iter.Key(), sequence, skipping, old(savedKey))
    {
      found, skips := false, skipping;
      var key := iter.Key();
      if key.sequence <= sequence {
        match key.kind
        case Deletion =>
          savedKey := key.user;
          skips := true;
        case Value =>
          if skipping && key.user <= savedKey {
            // hidden
          } else {
            found := true;
          }
      }
    }

    method Seek(target: UserKey)
      requires Ok()
      modifies this, iter
      ensures Ok() && (valid && direction.Forward? ==> iter.Valid())
      ensures valid ==> IsFirst(iter.run, sequence, target, false, Key())
      ensures !valid ==> forall u :: View(iter.run, sequence, u).Some? ==> u < target
    {
      direction := Forward;
      savedValue := "";
      iter.Seek(LookupKey(target, sequence));
      SeekStarts(iter.run, sequence, target, iter.pos);
      ScanFromHere(target);
    }

    method SeekToFirst()
      requires Ok()
      modifies this, iter
      ensures Ok() && (valid && direction.Forward? ==> iter.Valid())
      ensures valid ==> View(iter.run, sequence, Key()).Some?
                        && forall u :: View(iter.run, sequence, u).Some? ==> Key() <= u
      ensures !valid ==> forall u :: View(iter.run, sequence, u) == None
    {
      direction := Forward;
      savedValue := "";
      iter.SeekToFirst();
      ghost var low := if iter.Valid() then iter.Key().user else 0;
      FirstIsLow(iter.run, sequence, low);
      ScanFromHere(low);
    }

    /** The common end of Seek and SeekToFirst: everything before the internal iterator is below `target`
        or cannot be seen. */
    method ScanFromHere(ghost target: UserKey)
      requires iter.Ok() && Listable(iter.run) && direction.Forward? && Starts(iter.run, sequence, target, iter.pos)
      modifies this, iter
      ensures Ok() && (valid && direction.Forward? ==> iter.Valid())
      ensures valid ==> IsFirst(iter.run, sequence, target, false, Key())
      ensures !valid ==> forall u :: View(iter.run, sequence, u).Some? ==> u < target
    {
      ghost var start := iter.pos;
      if iter.Valid() {
        FindNextUserEntry(false);
      } else {
        valid := false;
      }
      if valid {
        SortedUsers(iter.run, start, at);
        FirstShown(iter.run, sequence, target, false, at);
      } else {
        NoneShown(iter.run, sequence, target, false);
      }
    }

    method Prev()
      requires Ok() && valid
      modifies this, iter
      ensures Ok() && (valid && direction.Forward? ==> iter.Valid())
      ensures valid ==> IsLast(iter.run, sequence, old(Key()), Key())
      ensures !valid ==> forall u :: View(iter.run, sequence, u).Some? ==> old(Key()) <= u
    {
      ghost var high := Key();
      if direction.Forward? {
        GoBefore();
        if !iter.Valid() {
          valid := false;
          savedKey, savedValue := 0, "";
          PrevFound(iter.run, sequence, -1, high, false, 0);
          return;
        }
        direction := Reverse;
      } else {
        BelowCurrent(iter.run, sequence, Standing(), at);
      }
      ghost var i := Standing();
      FindPrevUserEntry();
      PrevFound(iter.run, sequence, i, high, valid, at);
    }

    /** The internal iterator stands at the current entry: go back until the key changes. */
    method GoBefore()
      requires Ok() && valid && direction.Forward?
      modifies this`savedKey, iter
      ensures iter.Ok() && Below(iter.run, sequence, Standing(), old(Key()))
    {
      savedKey := iter.Key().user;
      ghost var high := savedKey;
      forall j | iter.pos <= j < |iter.run| ensures high <= iter.run[j].key.user {
        SortedUsers(iter.run, iter.pos, j);
      }
      iter.Prev();
      while iter.Valid() && iter.Key().user >= savedKey
        invariant iter.Ok() && savedKey == high
        invariant forall j :: Standing() < j < |iter.run| ==> high <= iter.run[j].key.user
        decreases Standing()
      {
        iter.Prev();
      }
      forall j | 0 <= j <= Standing() ensures iter.run[j].key.user < high {
        SortedUsers(iter.run, j, Standing());
      }
    }

    /** Finds the last entry to be shown up to the internal iterator's. */
    method FindPrevUserEntry()
      requires iter.Ok() && Listable(iter.run) && direction.Reverse?
      modifies this, iter
      ensures Ok()
      ensures valid ==> at <= old(Standing()) && direction.Reverse?
      ensures forall j :: (if valid then at else -1) < j <= old(Standing()) ==> !Shown(iter.run, sequence, j)
    {
      ghost var start := Standing();
      var kind, m := ScanBack();
      BackEnd(iter.run, sequence, start, Standing(), m, kind, savedKey, savedValue);
      if kind.Deletion? {
        valid := false;
        savedKey, savedValue := 0, "";
        direction := Forward;
      } else {
        valid := true;
        at := m;
      }
    }

    /** The loop of FindPrevUserEntry. */
    method ScanBack() returns (kind: Kind, ghost m: int)
      requires iter.Ok() && Listable(iter.run)
      modifies this`savedKey, this`savedValue, iter
      ensures iter.Ok() && ScannedBack(iter.run, sequence, old(Standing()), Standing(), m, kind, savedKey, savedValue)
      ensures iter.Valid() ==> kind.Value? && iter.Key().user < savedKey
    {
      var stop := false;
      ghost var start := Standing();
      kind, m := Deletion, start + 1;
      while iter.Valid() && !stop
        invariant iter.Ok()
        invariant ScannedBack(iter.run, sequence, start, Standing(), m, kind, savedKey, savedValue)
        invariant stop ==> kind.Value? && iter.Valid() && iter.Key().user < savedKey
        decreases !stop, Standing()
      {
        ghost var i, kind0, key0, value0 := iter.pos, kind, savedKey, savedValue;
        stop, kind := ExamineBack(kind);
        if Takes(iter.Key(), sequence, kind0, key0) {
          TakeBack(iter.run, sequence, start, i, m, kind0, key0, value0, savedKey, savedValue);
          m := i;
        } else if !stop {
          PassBack(iter.run, sequence, start, i, m, kind0, key0, value0);
        }
        if !stop {
          iter.Prev();
        }
      }
    }

    /** Looks at one entry: it ends the scan, or is remembered or passed. */
    method ExamineBack(kind: Kind) returns (stop: bool, k: Kind)
      requires iter.Valid()
      modifies this`savedKey, this`savedValue
      ensures stop == Stops(iter.Key(), sequence, kind, old(savedKey))
      ensures if Takes(iter.Key(), sequence, kind, old(savedKey)) then
                k == iter.Key().kind && (k.Value? ==> savedKey == iter.Key().user && savedValue == iter.Value())
              else k == kind && savedKey == old(savedKey) && savedValue == old(savedValue)
    {
      stop, k := false, kind;
      var key := iter.Key();
      if key.sequence <= sequence {
        if kind.Value? && key.user < savedKey {
          stop := true;
        } else {
          k := key.kind;
          if k.Deletion? {
            savedKey, savedValue := 0, "";
          } else {
            savedKey, savedValue := key.user, iter.Value();
          }
        }
      }
    }

    method SeekToLast()
      requires Ok()
      modifies this, iter
      ensures Ok() && (valid && direction.Forward? ==> iter.Valid())
      ensures valid ==> View(iter.run, sequence, Key()).Some?
                        && forall u :: View(iter.run, sequence, u).Some? ==> u <= Key()
      ensures !valid ==> forall u :: View(iter.run, sequence, u) == None
    {
      direction := Reverse;
      savedValue := "";
      iter.SeekToLast();
      FindPrevUserEntry();
      if valid {
        ShownIsViewed(iter.run, sequence, at);
      }
      forall u | View(iter.run, sequence, u).Some? ensures valid && u <= Key() {
        var j := ViewedIsShown(iter.run, sequence, u);
        assert valid && j <= at;
        SortedUsers(iter.run, j, at);
      }
    }
  }
}
