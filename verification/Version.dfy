/** Tables, versions and point lookups (db/version_set.cc).

    A version is an array of files per level.  Files of level 0 may overlap; files of a deeper level
    are sorted and disjoint.  Shallower data is newer. */
module Version {
  import opened Wrappers
  import opened InternalKeys
  import opened MultiVersion

  const NUM_LEVELS: nat := 7

  /** A table file together with its contents.  The metadata keeps the first and last key. */
  datatype File = File(number: nat, size: nat, entries: seq<Entry>) {
    predicate NonEmpty() { |entries| > 0 }
    function Smallest(): InternalKey requires NonEmpty() { entries[0].key }
    function Largest(): InternalKey requires NonEmpty() { entries[|entries| - 1].key }
  }

  type Levels = seq<seq<File>>

  ghost predicate WellFormed(f: File) {
    f.NonEmpty() && Sorted(f.entries)
  }

  /** Every version in `xs` is newer than every version of the same user key in `ys`. */
  ghost predicate Above(xs: seq<Entry>, ys: seq<Entry>) {
    forall x, y :: x in xs && y in ys && x.key.user == y.key.user ==> x.key.sequence > y.key.sequence
  }

  /** All of `f` precedes all of `g` in the internal key order. */
  ghost predicate Before(f: File, g: File) {
    f.NonEmpty() && g.NonEmpty() && Precedes(f.Largest(), g.Smallest())
  }

  /** The shape of a level below level 0. */
  ghost predicate SortedLevel(files: seq<File>) {
    && (forall i :: 0 <= i < |files| ==> WellFormed(files[i]))
    && forall i, j :: 0 <= i < j < |files| ==> Before(files[i], files[j])
  }

  /** The shape of level 0: ordered by file number as by sequence. */
  ghost predicate LevelZero(files: seq<File>) {
    && (forall i :: 0 <= i < |files| ==> WellFormed(files[i]))
    && (forall f, g :: f in files && g in files && f.number == g.number ==> f == g)
    && forall f, g :: f in files && g in files && f.number > g.number ==> Above(f.entries, g.entries)
  }

  ghost function EntriesOf(files: seq<File>): set<Entry> {
    set f, e | f in files && e in f.entries :: e
  }

  ghost function All(levels: Levels): set<Entry> {
    set files, e | files in levels && e in EntriesOf(files) :: e
  }

  /** The invariant of a version. */
  ghost predicate Tree(levels: Levels) {
    && |levels| == NUM_LEVELS
    && LevelZero(levels[0])
    && (forall l :: 1 <= l < NUM_LEVELS ==> SortedLevel(levels[l]))
    && (forall l, m, f, g :: 0 <= l < m < NUM_LEVELS && f in levels[l] && g in levels[m]
          ==> Above(f.entries, g.entries))
    && Distinct(All(levels))
  }

  lemma InAll(levels: Levels, l: nat, f: File, e: Entry)
    requires l < |levels| && f in levels[l] && e in f.entries
    ensures e in EntriesOf(levels[l]) && e in All(levels)
  {
    assert levels[l] in levels;
  }

  lemma AllIn(levels: Levels, e: Entry) returns (l: nat, f: File)
    requires e in All(levels)
    ensures l < |levels| && f in levels[l] && e in f.entries
  {
    var files :| files in levels && e in EntriesOf(files);
    l :| l < |levels| && levels[l] == files;
    f :| f in files && e in f.entries;
  }

  /** The position of the first entry at or after `k`: what an iterator over one table seeks. */
  function Seek(run: seq<Entry>, k: InternalKey): (i: nat)
    ensures i <= |run|
    ensures forall j :: 0 <= j < i ==> Precedes(run[j].key, k)
    ensures i < |run| ==> !Precedes(run[i].key, k)
  {
    if |run| == 0 || !Precedes(run[0].key, k) then 0 else 1 + Seek(run[1..], k)
  }

  /** The entry a table or memtable lookup reports: the first one at or after the lookup key,
      provided that it belongs to the user key looked for. */
  function Probe(run: seq<Entry>, user: UserKey, snapshot: nat): Option<Entry> {
    var i := Seek(run, LookupKey(user, snapshot));
    if i < |run| && run[i].key.user == user then Some(run[i]) else None
  }

  /** A probe of one sorted run is exact. */
  lemma ProbeIsNewest(run: seq<Entry>, user: UserKey, snapshot: nat)
    requires Sorted(run)
    ensures match Probe(run, user, snapshot)
            case None => forall e :: e in run ==> !Sees(e, user, snapshot)
            case Some(x) => x in run && Sees(x, user, snapshot)
                            && forall e :: e in run && Sees(e, user, snapshot) ==> e.key.sequence <= x.key.sequence
  {
    var i := Seek(run, LookupKey(user, snapshot));
    forall e | e in run && Sees(e, user, snapshot)
      ensures i < |run| && run[i].key.user == user && e.key.sequence <= run[i].key.sequence
    {
      var j :| 0 <= j < |run| && run[j] == e;
      assert !Precedes(e.key, LookupKey(user, snapshot));
      if i < j {
        assert Precedes(run[i].key, run[j].key);
      }
    }
  }

  /** Binary search for the first file whose largest key is at or after `key`. */
  method FindFile(files: seq<File>, key: InternalKey) returns (right: nat)
    requires SortedLevel(files)
    ensures right <= |files|
    ensures forall i :: 0 <= i < right ==> Precedes(files[i].Largest(), key)
    ensures forall i :: right <= i < |files| ==> !Precedes(files[i].Largest(), key)
  {
    var left := 0;
    right := |files|;
    while left < right
      invariant left <= right <= |files|
      invariant forall i :: 0 <= i < left ==> Precedes(files[i].Largest(), key)
      invariant forall i :: right <= i < |files| ==> !Precedes(files[i].Largest(), key)
    {
      var mid := (left + right) / 2;
      if Precedes(files[mid].Largest(), key) {
        forall i | 0 <= i < mid ensures Precedes(files[i].Largest(), key) {
          FilesAscend(files, i, mid);
        }
        left := mid + 1;
      } else {
        forall i | mid < i < |files| ensures !Precedes(files[i].Largest(), key) {
          FilesAscend(files, mid, i);
        }
        right := mid;
      }
    }
  }

  lemma FilesAscend(files: seq<File>, i: nat, j: nat)
    requires SortedLevel(files) && i < j < |files|
    ensures Precedes(files[i].Largest(), files[j].Largest())
  {
    assert Before(files[i], files[j]);
    assert WellFormed(files[j]);
  }

  /** A visible version lies in the first file reaching the lookup key or in a later one, and then the
      user key reaches back to the first. */
  lemma VisibleIsNotBefore(files: seq<File>, user: UserKey, snapshot: nat, index: nat, i: nat, e: Entry)
    requires SortedLevel(files) && index <= |files| && i < |files|
    requires forall k :: 0 <= k < index ==> Precedes(files[k].Largest(), LookupKey(user, snapshot))
    requires e in files[i].entries && Sees(e, user, snapshot)
    ensures index <= i && files[index].Smallest().user <= user
  {
    var j :| 0 <= j < |files[i].entries| && files[i].entries[j] == e;
    assert WellFormed(files[i]);
    assert index <= i;
    assert WellFormed(files[index]);
    if index < i { assert Before(files[index], files[i]); }
  }

  /** That first file holds a visible version at least as new. */
  lemma CandidateSees(files: seq<File>, user: UserKey, snapshot: nat, index: nat, i: nat, e: Entry)
    requires SortedLevel(files) && index <= i < |files|
    requires !Precedes(files[index].Largest(), LookupKey(user, snapshot))
    requires e in files[i].entries && Sees(e, user, snapshot)
    ensures Probe(files[index].entries, user, snapshot).Some?
    ensures e.key.sequence <= Probe(files[index].entries, user, snapshot).value.key.sequence
  {
    var j :| 0 <= j < |files[i].entries| && files[i].entries[j] == e;
    assert WellFormed(files[index]) && WellFormed(files[i]);
    if index < i { assert Before(files[index], files[i]); }
    ProbeIsNewest(files[index].entries, user, snapshot);
  }

  lemma ProbedIsInLevel(files: seq<File>, user: UserKey, snapshot: nat, index: nat)
    requires SortedLevel(files) && index < |files| && Probe(files[index].entries, user, snapshot).Some?
    ensures Sees(Probe(files[index].entries, user, snapshot).value, user, snapshot)
    ensures Probe(files[index].entries, user, snapshot).value in EntriesOf(files)
  {
    assert WellFormed(files[index]) && files[index] in files;
    ProbeIsNewest(files[index].entries, user, snapshot);
  }

  /** Within a sorted level only the first file reaching the lookup key can hold the answer, even
      when the user key spans several files. */
  lemma OneFileSuffices(files: seq<File>, user: UserKey, snapshot: nat, index: nat)
    requires SortedLevel(files) && index <= |files|
    requires forall i :: 0 <= i < index ==> Precedes(files[i].Largest(), LookupKey(user, snapshot))
    requires index < |files| ==> !Precedes(files[index].Largest(), LookupKey(user, snapshot))
    ensures index < |files| && user >= files[index].Smallest().user ==>
              match Probe(files[index].entries, user, snapshot)
              case None => Blind(EntriesOf(files), user, snapshot)
              case Some(x) => IsNewest(EntriesOf(files), user, snapshot, x)
    ensures !(index < |files| && user >= files[index].Smallest().user) ==>
              Blind(EntriesOf(files), user, snapshot)
  {
    forall e | e in EntriesOf(files) && Sees(e, user, snapshot)
      ensures index < |files| && user >= files[index].Smallest().user
      ensures Probe(files[index].entries, user, snapshot).Some?
      ensures e.key.sequence <= Probe(files[index].entries, user, snapshot).value.key.sequence
    {
      var f :| f in files && e in f.entries;
      var i :| 0 <= i < |files| && files[i] == f;
      VisibleIsNotBefore(files, user, snapshot, index, i, e);
      CandidateSees(files, user, snapshot, index, i, e);
    }
    if index < |files| && Probe(files[index].entries, user, snapshot).Some? {
      ProbedIsInLevel(files, user, snapshot, index);
    }
  }

  /** Files ordered newest first, as level-0 candidates are before they are searched. */
  function NewestFirst(files: seq<File>): (r: seq<File>)
    ensures forall f :: f in r <==> f in files
    ensures forall i, j :: 0 <= i < j < |r| ==> r[i].number >= r[j].number
  {
    if files == [] then [] else InsertByNumber(NewestFirst(files[1..]), files[0])
  }

  function InsertByNumber(files: seq<File>, f: File): (r: seq<File>)
    requires forall i, j :: 0 <= i < j < |files| ==> files[i].number >= files[j].number
    ensures forall g :: g in r <==> g in files || g == f
    ensures forall i, j :: 0 <= i < j < |r| ==> r[i].number >= r[j].number
  {
    if files == [] || f.number >= files[0].number then [f] + files
    else
      var rest := InsertByNumber(files[1..], f);
      assert forall k :: 0 <= k < |rest| ==> rest[k] in rest;
      [files[0]] + rest
  }

  /** A newer level-0 file's visible version shadows an older file's. */
  lemma NewerFileShadows(files: seq<File>, f: File, g: File, user: UserKey, snapshot: nat, e: Entry)
    requires LevelZero(files) && f in files && g in files && (f == g || f.number > g.number)
    requires Probe(f.entries, user, snapshot).Some? && e in g.entries && Sees(e, user, snapshot)
    ensures e.key.sequence <= Probe(f.entries, user, snapshot).value.key.sequence
  {
    assert WellFormed(f);
    ProbeIsNewest(f.entries, user, snapshot);
    if f != g { assert Above(f.entries, g.entries); }
  }

  lemma VisibleMeansProbed(files: seq<File>, f: File, user: UserKey, snapshot: nat, e: Entry)
    requires LevelZero(files) && f in files && e in f.entries && Sees(e, user, snapshot)
    ensures Probe(f.entries, user, snapshot).Some? && !Foreign(f, user)
  {
    assert WellFormed(f);
    ProbeIsNewest(f.entries, user, snapshot);
  }

  lemma ProbeIsIn(files: seq<File>, f: File, user: UserKey, snapshot: nat)
    requires LevelZero(files) && f in files && Probe(f.entries, user, snapshot).Some?
    ensures Sees(Probe(f.entries, user, snapshot).value, user, snapshot)
    ensures Probe(f.entries, user, snapshot).value in EntriesOf(files)
  {
    assert WellFormed(f);
    ProbeIsNewest(f.entries, user, snapshot);
  }

  /** The newest level-0 file holding a visible version holds the newest visible version. */
  lemma NewerFilesShadow(files: seq<File>, r: seq<File>, n: nat, user: UserKey, snapshot: nat)
    requires LevelZero(files)
    requires forall f :: f in r ==> f in files
    requires forall f :: f in files && f !in r ==> Foreign(f, user)
    requires forall i, j :: 0 <= i < j < |r| ==> r[i].number >= r[j].number
    requires n < |r| && Probe(r[n].entries, user, snapshot).Some?
    requires forall i :: 0 <= i < n ==> Probe(r[i].entries, user, snapshot).None?
    ensures IsNewest(EntriesOf(files), user, snapshot, Probe(r[n].entries, user, snapshot).value)
  {
    ProbeIsIn(files, r[n], user, snapshot);
    forall e | e in EntriesOf(files) && Sees(e, user, snapshot)
      ensures e.key.sequence <= Probe(r[n].entries, user, snapshot).value.key.sequence
    {
      var f :| f in files && e in f.entries;
      VisibleMeansProbed(files, f, user, snapshot, e);
      var i :| 0 <= i < |r| && r[i] == f;
      NumberDecides(files, r[n], f);
      NewerFileShadows(files, r[n], f, user, snapshot, e);
    }
  }

  lemma NumberDecides(files: seq<File>, f: File, g: File)
    requires LevelZero(files) && f in files && g in files && f.number >= g.number
    ensures f == g || f.number > g.number
  {
  }

  lemma DeeperIsOlder(levels: Levels, l: nat, m: nat, user: UserKey, x: Entry, e: Entry)
    requires Tree(levels) && l < m < NUM_LEVELS && x in EntriesOf(levels[l]) && e in EntriesOf(levels[m])
    requires x.key.user == e.key.user
    ensures e.key.sequence < x.key.sequence
  {
    var g :| g in levels[l] && x in g.entries;
    var f :| f in levels[m] && e in f.entries;
    assert Above(g.entries, f.entries);
  }

  /** A version found in a level is the newest of all when no shallower level holds a visible one. */
  lemma ShallowerLevelsShadow(levels: Levels, l: nat, user: UserKey, snapshot: nat, x: Entry)
    requires Tree(levels) && l < NUM_LEVELS
    requires forall m :: 0 <= m < l ==> Blind(EntriesOf(levels[m]), user, snapshot)
    requires IsNewest(EntriesOf(levels[l]), user, snapshot, x)
    ensures Read(All(levels), user, snapshot) == Some(x)
  {
    assert x in All(levels) by {
      var g :| g in levels[l] && x in g.entries;
      InAll(levels, l, g, x);
    }
    forall e | e in All(levels) && Sees(e, user, snapshot)
      ensures e.key.sequence <= x.key.sequence
    {
      var m, f := AllIn(levels, e);
      assert e in EntriesOf(levels[m]);
      if l < m { DeeperIsOlder(levels, l, m, user, x, e); }
    }
    ReadSome(All(levels), user, snapshot, x);
  }

  /** Point lookup in a version: level 0 from the newest candidate to the oldest, then at most one
      file per deeper level, stopping at the first version found. */
  method Get(levels: Levels, user: UserKey, snapshot: nat) returns (r: Option<Entry>)
    requires Tree(levels)
    ensures r == Read(All(levels), user, snapshot)
  {
    var level := 0;
    while level < NUM_LEVELS
      invariant 0 <= level <= NUM_LEVELS
      invariant forall m :: 0 <= m < level ==> Blind(EntriesOf(levels[m]), user, snapshot)
    {
      if level == 0 {
        r := GetFromLevelZero(levels[0], user, snapshot);
      } else {
        r := GetFromSortedLevel(levels[level], user, snapshot);
      }
      if r.Some? {
        ShallowerLevelsShadow(levels, level, user, snapshot, r.value);
        return;
      }
      level := level + 1;
    }
    forall e | e in All(levels) ensures !Sees(e, user, snapshot) {
      var m, f := AllIn(levels, e);
      assert e in EntriesOf(levels[m]);
    }
    ReadNone(All(levels), user, snapshot);
    r := None;
  }

  method GetFromSortedLevel(files: seq<File>, user: UserKey, snapshot: nat) returns (r: Option<Entry>)
    requires SortedLevel(files)
    ensures match r
            case None => Blind(EntriesOf(files), user, snapshot)
            case Some(x) => IsNewest(EntriesOf(files), user, snapshot, x)
  {
    var index := FindFile(files, LookupKey(user, snapshot));
    OneFileSuffices(files, user, snapshot, index);
    if index < |files| && user >= files[index].Smallest().user {
      r := Probe(files[index].entries, user, snapshot);
    } else {
      r := None;
    }
  }

  /** The user key lies in the file's user-key range. */
  predicate Covers(f: File, user: UserKey) {
    f.NonEmpty() && f.Smallest().user <= user <= f.Largest().user
  }

  method CoveringFiles(files: seq<File>, user: UserKey) returns (tmp: seq<File>)
    requires forall i :: 0 <= i < |files| ==> files[i].NonEmpty()
    ensures forall f :: f in tmp <==> f in files && Covers(f, user)
  {
    tmp := [];
    for i := 0 to |files|
      invariant forall f :: f in tmp <==> f in files[..i] && Covers(f, user)
    {
      if files[i].Smallest().user <= user <= files[i].Largest().user {
        tmp := tmp + [files[i]];
      }
    }
    assert files[..|files|] == files;
  }

  method GetFromLevelZero(files: seq<File>, user: UserKey, snapshot: nat) returns (r: Option<Entry>)
    requires LevelZero(files)
    ensures match r
            case None => Blind(EntriesOf(files), user, snapshot)
            case Some(x) => IsNewest(EntriesOf(files), user, snapshot, x)
  {
    var candidates := CoveringFiles(files, user);
    r := SearchNewestFirst(files, NewestFirst(candidates), user, snapshot);
  }

  method SearchNewestFirst(files: seq<File>, tmp: seq<File>, user: UserKey, snapshot: nat)
    returns (r: Option<Entry>)
    requires LevelZero(files)
    requires forall f :: f in tmp <==> f in files && Covers(f, user)
    requires forall i, j :: 0 <= i < j < |tmp| ==> tmp[i].number >= tmp[j].number
    ensures match r
            case None => Blind(EntriesOf(files), user, snapshot)
            case Some(x) => IsNewest(EntriesOf(files), user, snapshot, x)
  {
    UncoveredFilesAreForeign(files, user);
    r := None;
    for i := 0 to |tmp|
      invariant r.None?
      invariant forall j :: 0 <= j < i ==> Probe(tmp[j].entries, user, snapshot).None?
    {
      r := Probe(tmp[i].entries, user, snapshot);
      if r.Some? {
        NewerFilesShadow(files, tmp, i, user, snapshot);
        return;
      }
    }
    AllProbesFail(files, tmp, user, snapshot);
  }

  lemma UncoveredFilesAreForeign(files: seq<File>, user: UserKey)
    requires LevelZero(files)
    ensures forall f :: f in files && !Covers(f, user) ==> Foreign(f, user)
  {
    forall f | f in files && !Covers(f, user) ensures Foreign(f, user) {
      assert WellFormed(f);
      EntriesInRange(f);
    }
  }

  /** No version in the file belongs to the user key. */
  ghost predicate Foreign(f: File, user: UserKey) {
    forall e :: e in f.entries ==> e.key.user != user
  }

  /** The snapshot sees no version of the user key. */
  ghost predicate Blind(S: set<Entry>, user: UserKey, snapshot: nat) {
    forall e :: e in S ==> !Sees(e, user, snapshot)
  }

  lemma AllProbesFail(files: seq<File>, r: seq<File>, user: UserKey, snapshot: nat)
    requires LevelZero(files)
    requires forall f :: f in r ==> f in files
    requires forall f :: f in files && f !in r ==> Foreign(f, user)
    requires forall i :: 0 <= i < |r| ==> Probe(r[i].entries, user, snapshot).None?
    ensures Blind(EntriesOf(files), user, snapshot)
  {
    forall e | e in EntriesOf(files) ensures !Sees(e, user, snapshot) {
      var f :| f in files && e in f.entries;
      if f in r {
        var j :| 0 <= j < |r| && r[j] == f;
        assert WellFormed(f);
        ProbeIsNewest(f.entries, user, snapshot);
      }
    }
  }

  lemma EntriesInRange(f: File)
    requires WellFormed(f)
    ensures forall e :: e in f.entries ==>
              && f.Smallest().user <= e.key.user <= f.Largest().user
              && !Precedes(e.key, f.Smallest()) && !Precedes(f.Largest(), e.key)
  {
    forall e | e in f.entries
      ensures f.Smallest().user <= e.key.user <= f.Largest().user
      ensures !Precedes(e.key, f.Smallest()) && !Precedes(f.Largest(), e.key)
    {
      var i :| 0 <= i < |f.entries| && f.entries[i] == e;
      if i > 0 { assert Precedes(f.entries[0].key, f.entries[i].key); }
      if i < |f.entries| - 1 { assert Precedes(f.entries[i].key, f.entries[|f.entries| - 1].key); }
    }
  }
}
