/** The specification every structure of the engine refines: a set of versions, read at a
    snapshot. */
module MultiVersion {
  import opened Wrappers
  import opened InternalKeys

  /** The snapshot `s` sees the version `e` of user key `u`. */
  predicate Sees(e: Entry, u: UserKey, s: nat) {
    e.key.user == u && e.key.sequence <= s
  }

  ghost predicate IsNewest(S: set<Entry>, u: UserKey, s: nat, e: Entry) {
    && e in S && Sees(e, u, s)
    && forall x :: x in S && Sees(x, u, s) ==> x.key.sequence <= e.key.sequence
  }

  /** The newest version of `u` that snapshot `s` sees in `S`, if there is one. */
  ghost function Read(S: set<Entry>, u: UserKey, s: nat): Option<Entry> {
    if exists e :: IsNewest(S, u, s, e) then
      var e :| IsNewest(S, u, s, e);
      Some(e)
    else
      None
  }

  /** What a client is told: a tombstone and an absent key look the same. */
  function Meaning(r: Option<Entry>): Option<string> {
    if r.Some? && r.value.key.kind.Value? then Some(r.value.value) else None
  }

  /** No two versions of a user key carry the same sequence number. */
  ghost predicate Distinct(S: set<Entry>) {
    forall x, y :: x in S && y in S && x.key.user == y.key.user && x.key.sequence == y.key.sequence ==> x == y
  }

  /** `S` and `T` cannot be told apart by a read at any snapshot from `floor` on. */
  ghost predicate SameFrom(floor: nat, S: set<Entry>, T: set<Entry>) {
    forall u, s: nat :: floor <= s ==> Meaning(Read(S, u, s)) == Meaning(Read(T, u, s))
  }

  lemma {:induction false} NewestExists(S: set<Entry>, u: UserKey, s: nat, x: Entry)
    requires x in S && Sees(x, u, s)
    ensures exists e :: IsNewest(S, u, s, e)
    decreases S
  {
    if y :| y in S && Sees(y, u, s) && y.key.sequence > x.key.sequence {
      NewestExists(S - {x}, u, s, y);
      var e :| IsNewest(S - {x}, u, s, e);
      assert IsNewest(S, u, s, e);
    } else {
      assert IsNewest(S, u, s, x);
    }
  }

  /** `Read` answers None exactly when the snapshot sees no version. */
  lemma ReadNone(S: set<Entry>, u: UserKey, s: nat)
    ensures Read(S, u, s).None? <==> forall x :: x in S ==> !Sees(x, u, s)
  {
    if x :| x in S && Sees(x, u, s) {
      NewestExists(S, u, s, x);
    }
  }

  lemma ReadSome(S: set<Entry>, u: UserKey, s: nat, e: Entry)
    requires Distinct(S) && IsNewest(S, u, s, e)
    ensures Read(S, u, s) == Some(e)
  {
  }

  /** Every entry of `S` was written after every entry of `T`. */
  ghost predicate Later(S: set<Entry>, T: set<Entry>) {
    forall x, y :: x in S && y in T ==> x.key.sequence > y.key.sequence
  }

  /** Later writes shadow: a read finds the newest of them, or falls through to what came before. */
  lemma ReadLater(S: set<Entry>, M: set<Entry>, u: UserKey, s: nat)
    requires Distinct(S + M) && Later(M, S)
    ensures Read(S + M, u, s) == if Read(M, u, s).Some? then Read(M, u, s) else Read(S, u, s)
  {
    ReadNone(M, u, s);
    ReadNone(S, u, s);
    ReadNone(S + M, u, s);
    if Read(M, u, s).Some? {
      var e := Read(M, u, s).value;
      assert IsNewest(S + M, u, s, e);
      ReadSome(S + M, u, s, e);
    } else if Read(S, u, s).Some? {
      var e := Read(S, u, s).value;
      assert IsNewest(S + M, u, s, e);
      ReadSome(S + M, u, s, e);
    }
  }

  /** Indistinguishable sets stay so under the same later writes. */
  lemma SameFromLater(floor: nat, S: set<Entry>, T: set<Entry>, M: set<Entry>)
    requires SameFrom(floor, S, T) && Distinct(S + M) && Distinct(T + M) && Later(M, S) && Later(M, T)
    ensures SameFrom(floor, S + M, T + M)
  {
    forall u, s: nat | floor <= s ensures Meaning(Read(S + M, u, s)) == Meaning(Read(T + M, u, s)) {
      ReadLater(S, M, u, s);
      ReadLater(T, M, u, s);
    }
  }

  lemma SameFromTransitive(f: nat, g: nat, h: nat, R: set<Entry>, S: set<Entry>, T: set<Entry>)
    requires SameFrom(f, R, S) && SameFrom(g, S, T) && f <= h && g <= h
    ensures SameFrom(h, R, T)
  {
  }
}
