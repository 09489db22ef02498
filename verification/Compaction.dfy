/** Compaction: which entries survive a merge of input files, and why no reader can tell
    (db/db_impl.cc, DBImpl::DoCompactionWork; db/version_set.cc, Compaction). */
module Compaction {
  import opened Wrappers
  import opened InternalKeys
  import opened Version

  /** No file two or more levels below `level` has the user key in its range. */
  ghost predicate IsBase(levels: Levels, level: nat, user: UserKey) {
    forall l, f :: level + 2 <= l < |levels| && f in levels[l] ==> !Covers(f, user)
  }

  /** The entry before position `i` is a version of the same user key that the oldest snapshot
      already sees. */
  predicate Hidden(input: seq<Entry>, i: nat, smallestSnapshot: nat)
    requires i < |input|
  {
    && i > 0 && input[i - 1].key.user == input[i].key.user
    && input[i - 1].key.sequence <= smallestSnapshot
  }

  /** A tombstone every snapshot sees, with nothing beneath it. */
  ghost predicate Obsolete(e: Entry, smallestSnapshot: nat, levels: Levels, level: nat) {
    && e.key.kind.Deletion? && e.key.sequence <= smallestSnapshot
    && IsBase(levels, level, e.key.user)
  }

  ghost predicate Dropped(input: seq<Entry>, i: nat, smallestSnapshot: nat, levels: Levels, level: nat)
    requires i < |input|
  {
    Hidden(input, i, smallestSnapshot) || Obsolete(input[i], smallestSnapshot, levels, level)
  }

  /** What survives of the first `n` entries of the merged input. */
  ghost function Kept(input: seq<Entry>, n: nat, smallestSnapshot: nat, levels: Levels, level: nat): (r: seq<Entry>)
    requires n <= |input|
  {
    if n == 0 then [] else
      Kept(input, n - 1, smallestSnapshot, levels, level)
      + if Dropped(input, n - 1, smallestSnapshot, levels, level) then [] else [input[n - 1]]
  }

  lemma {:induction false} KeptContents(input: seq<Entry>, n: nat, smallestSnapshot: nat, levels: Levels, level: nat)
    requires n <= |input|
    ensures forall e :: e in Kept(input, n, smallestSnapshot, levels, level)
              <==> exists i :: 0 <= i < n && input[i] == e && !Dropped(input, i, smallestSnapshot, levels, level)
  {
    if n > 0 {
      KeptContents(input, n - 1, smallestSnapshot, levels, level);
    }
  }

  lemma {:induction false} KeptIsSorted(input: seq<Entry>, n: nat, smallestSnapshot: nat, levels: Levels, level: nat)
    requires n <= |input| && Sorted(input)
    ensures Sorted(Kept(input, n, smallestSnapshot, levels, level))
  {
    if n > 0 {
      KeptIsSorted(input, n - 1, smallestSnapshot, levels, level);
      KeptContents(input, n - 1, smallestSnapshot, levels, level);
      var before := Kept(input, n - 1, smallestSnapshot, levels, level);
      forall k | 0 <= k < |before| ensures Precedes(before[k].key, input[n - 1].key) {
        assert before[k] in before;
      }
    }
  }

  ghost function Flatten(files: seq<File>): seq<Entry> {
    if files == [] then [] else Flatten(files[..|files| - 1]) + files[|files| - 1].entries
  }

  /** A compaction in progress: the input version, the level compacted, and one pointer per level
      that only moves forward as user keys are presented in order. */
  class Compaction {
    const level: nat
    const inputVersion: Levels
    const levelPtrs: array<nat>

    constructor (level: nat, levels: Levels)
      requires |levels| == NUM_LEVELS
      ensures this.level == level && inputVersion == levels && fresh(levelPtrs)
      ensures levelPtrs.Length == NUM_LEVELS
      ensures forall user :: PointersBehind(user)
    {
      this.level := level;
      inputVersion := levels;
      levelPtrs := new nat[NUM_LEVELS](_ => 0);
    }

    /** The files the pointers have passed end before the user key. */
    ghost predicate PointersBehind(user: UserKey)
      reads levelPtrs
    {
      && levelPtrs.Length == NUM_LEVELS == |inputVersion|
      && forall l :: 0 <= l < NUM_LEVELS ==>
           && levelPtrs[l] <= |inputVersion[l]|
           && forall i :: 0 <= i < levelPtrs[l] ==>
                inputVersion[l][i].NonEmpty() && inputVersion[l][i].Largest().user < user
    }

    method IsBaseLevelForKey(user: UserKey) returns (isBase: bool)
      requires Tree(inputVersion) && PointersBehind(user)
      modifies levelPtrs
      ensures PointersBehind(user)
      ensures isBase == IsBase(inputVersion, level, user)
    {
      var lvl := level + 2;
      while lvl < NUM_LEVELS
        invariant PointersBehind(user)
        invariant forall l, f :: level + 2 <= l < lvl && l < NUM_LEVELS && f in inputVersion[l] ==> !Covers(f, user)
      {
        assert SortedLevel(inputVersion[lvl]);
        var covered := AdvancePointer(lvl, user);
        if covered { return false; }
        lvl := lvl + 1;
      }
      return true;
    }

    /** Moves one level's pointer past the files that end before the user key, and looks at the next. */
    method AdvancePointer(lvl: nat, user: UserKey) returns (covered: bool)
      requires lvl < NUM_LEVELS && PointersBehind(user) && SortedLevel(inputVersion[lvl])
      modifies levelPtrs
      ensures PointersBehind(user)
      ensures covered <==> exists f :: f in inputVersion[lvl] && Covers(f, user)
    {
      var files := inputVersion[lvl];
      while levelPtrs[lvl] < |files|
        invariant PointersBehind(user)
        decreases |files| - levelPtrs[lvl]
      {
        var f := files[levelPtrs[lvl]];
        assert WellFormed(f) && f in files;
        if user <= f.Largest().user {
          if user >= f.Smallest().user { return true; }
          break;
        }
        levelPtrs[lvl] := levelPtrs[lvl] + 1;
      }
      PastTheKey(files, levelPtrs[lvl], user);
      return false;
    }

    static lemma PastTheKey(files: seq<File>, ptr: nat, user: UserKey)
      requires SortedLevel(files) && ptr <= |files|
      requires forall i :: 0 <= i < ptr ==> files[i].Largest().user < user
      requires ptr < |files| ==> user < files[ptr].Smallest().user
      ensures forall f :: f in files ==> !Covers(f, user)
    {
      forall f | f in files ensures !Covers(f, user) {
        var i :| 0 <= i < |files| && files[i] == f;
        assert WellFormed(f);
        if i > ptr {
          assert Before(files[ptr], files[i]) && WellFormed(files[ptr]);
          EntriesInRange(files[ptr]);
          assert files[ptr].entries[|files[ptr].entries| - 1] in files[ptr].entries;
        }
      }
    }

    lemma PointersStayBehind(user: UserKey, later: UserKey)
      requires PointersBehind(user) && user <= later
      ensures PointersBehind(later)
    {
    }

    /** What has been written so far: the closed tables and the one being built. */
    static ghost function Written(outputs: seq<File>, builder: seq<Entry>): seq<Entry> {
      Flatten(outputs) + builder
    }

    /** Output tables hold at least one entry and take consecutive file numbers. */
    static ghost predicate Numbered(outputs: seq<File>, firstNumber: nat) {
      forall k :: 0 <= k < |outputs| ==> outputs[k].NonEmpty() && outputs[k].number == firstNumber + k
    }

    /** The merge loop: walks the merged input, drops what no snapshot can see, and writes the rest to
        output tables cut wherever the size rules say (any cut is allowed for here).  An empty
        `builder` stands for no open output table. */
    method DoCompactionWork(input: seq<Entry>, smallestSnapshot: nat, firstNumber: nat)
      returns (outputs: seq<File>)
      requires Tree(inputVersion) && Sorted(input) && forall user :: PointersBehind(user)
      requires smallestSnapshot < MAX_SEQUENCE
      modifies levelPtrs
      ensures Flatten(outputs) == Kept(input, |input|, smallestSnapshot, inputVersion, level)
      ensures Numbered(outputs, firstNumber)
    {
      outputs := [];
      var builder := [];
      var currentUserKey: Option<UserKey> := None;
      var lastSequenceForKey := MAX_SEQUENCE;
      var i := 0;
      while i < |input|
        invariant 0 <= i <= |input|
        invariant if i == 0 then currentUserKey == None else
                    currentUserKey == Some(input[i - 1].key.user) && lastSequenceForKey == input[i - 1].key.sequence
        invariant if i == 0 then forall user :: PointersBehind(user) else PointersBehind(input[i - 1].key.user)
        invariant Written(outputs, builder) == Kept(input, i, smallestSnapshot, inputVersion, level)
        invariant Numbered(outputs, firstNumber)
      {
        var e := input[i];
        outputs, builder := MaybeFinishOutputFile(outputs, builder, firstNumber);
        if currentUserKey != Some(e.key.user) {
          currentUserKey := Some(e.key.user);
          lastSequenceForKey := MAX_SEQUENCE;
        }
        if i > 0 {
          assert Precedes(input[i - 1].key, e.key);
          PointersStayBehind(input[i - 1].key.user, e.key.user);
        }
        var drop := ShouldDrop(e, lastSequenceForKey, smallestSnapshot);
        lastSequenceForKey := e.key.sequence;
        assert drop == Dropped(input, i, smallestSnapshot, inputVersion, level);
        if !drop {
          AppendWritten(outputs, builder, e);
          outputs, builder := MaybeFinishOutputFile(outputs, builder + [e], firstNumber);
        }
        i := i + 1;
      }
      if builder != [] {
        outputs := FinishOutputFile(outputs, builder, firstNumber);
      }
    }

    /** The two drop rules: hidden by a newer version every snapshot sees, or an obsolete tombstone. */
    method ShouldDrop(e: Entry, lastSequenceForKey: nat, smallestSnapshot: nat) returns (drop: bool)
      requires Tree(inputVersion) && PointersBehind(e.key.user)
      modifies levelPtrs
      ensures PointersBehind(e.key.user)
      ensures drop <==> lastSequenceForKey <= smallestSnapshot || Obsolete(e, smallestSnapshot, inputVersion, level)
    {
      drop := false;
      if lastSequenceForKey <= smallestSnapshot {
        drop := true;
      } else if e.key.kind.Deletion? && e.key.sequence <= smallestSnapshot {
        drop := IsBaseLevelForKey(e.key.user);
      }
    }

    static lemma AppendWritten(outputs: seq<File>, builder: seq<Entry>, e: Entry)
      ensures Written(outputs, builder + [e]) == Written(outputs, builder) + [e]
    {
    }

    /** Closes the open output table, if there is one and a size rule says so. */
    static method MaybeFinishOutputFile(outputs: seq<File>, builder: seq<Entry>, firstNumber: nat)
      returns (outputs': seq<File>, builder': seq<Entry>)
      requires Numbered(outputs, firstNumber)
      ensures Written(outputs', builder') == Written(outputs, builder) && Numbered(outputs', firstNumber)
    {
      var stop: bool := *;
      if stop && builder != [] {
        outputs' := FinishOutputFile(outputs, builder, firstNumber);
        builder' := [];
      } else {
        outputs', builder' := outputs, builder;
      }
    }

    static method FinishOutputFile(outputs: seq<File>, builder: seq<Entry>, firstNumber: nat) returns (r: seq<File>)
      requires builder != [] && Numbered(outputs, firstNumber)
      ensures Flatten(r) == Written(outputs, builder) && Numbered(r, firstNumber)
    {
      var size: nat := *;
      r := outputs + [File(firstNumber + |outputs|, size, builder)];
      assert r[..|r| - 1] == outputs;
    }
  }
}
