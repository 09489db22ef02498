/** Keys as byte strings: the bytewise order, separators between keys, and the internal order over
    byte keys (util/comparator.cc, db/dbformat.cc). */
module Bytewise {
  import opened Bytes
  import opened InternalKeys

  /** The order of Slice::compare: by the first byte that differs, a prefix first. */
  predicate Less(a: seq<byte>, b: seq<byte>) {
    if b == [] then false
    else if a == [] then true
    else a[0] < b[0] || (a[0] == b[0] && Less(a[1..], b[1..]))
  }

  lemma {:induction false} LessIsTotal(a: seq<byte>, b: seq<byte>)
    ensures !Less(a, a)
    ensures a == b || Less(a, b) || Less(b, a)
    ensures !(Less(a, b) && Less(b, a))
    decreases |a|
  {
    if a != [] {
      LessIsTotal(a[1..], if b == [] then [] else b[1..]);
      if b != [] {
        assert a == [a[0]] + a[1..] && b == [b[0]] + b[1..];
      }
    }
  }

  lemma {:induction false} LessIsTransitive(a: seq<byte>, b: seq<byte>, c: seq<byte>)
    requires Less(a, b) && Less(b, c)
    ensures Less(a, c)
    decreases |a|
  {
    if a != [] && a[0] == b[0] == c[0] {
      LessIsTransitive(a[1..], b[1..], c[1..]);
    }
  }

  /** Keys that agree on their first `n` bytes compare as what follows does. */
  lemma {:induction false} CommonPrefix(a: seq<byte>, b: seq<byte>, n: nat)
    requires n <= |a| && n <= |b| && a[..n] == b[..n]
    ensures Less(a, b) <==> Less(a[n..], b[n..])
    decreases n
  {
    if n > 0 {
      assert a[0] == a[..n][0] == b[..n][0] == b[0];
      assert a[1..][..n - 1] == a[..n][1..] == b[..n][1..] == b[1..][..n - 1];
      CommonPrefix(a[1..], b[1..], n - 1);
      assert a[1..][n - 1..] == a[n..] && b[1..][n - 1..] == b[n..];
    }
  }

  /** The first byte at which two keys differ. */
  ghost predicate FirstDifference(a: seq<byte>, b: seq<byte>, d: nat) {
    d < |a| && d < |b| && a[..d] == b[..d] && a[d] != b[d]
  }

  /** There is room for a shorter key after the first difference. */
  ghost predicate CanShorten(start: seq<byte>, limit: seq<byte>, d: nat) {
    FirstDifference(start, limit, d) && start[d] as int + 1 < limit[d] as int
  }

  /** A short key from `start` on and below `limit`: its first byte to differ is raised by one, and what
      follows is cut, if that stays below. */
  method FindShortestSeparator(start: seq<byte>, limit: seq<byte>) returns (r: seq<byte>)
    ensures r == start || (Less(start, r) && Less(r, limit) && |r| <= |start|)
    ensures forall d: nat :: CanShorten(start, limit, d) ==> r == start[..d] + [start[d] + 1]
  {
    var minLength := if |start| < |limit| then |start| else |limit|;
    var diffIndex := 0;
    while diffIndex < minLength && start[diffIndex] == limit[diffIndex]
      invariant diffIndex <= minLength && start[..diffIndex] == limit[..diffIndex]
    {
      diffIndex := diffIndex + 1;
    }
    r := start;
    forall d: nat | CanShorten(start, limit, d) ensures d == diffIndex < minLength {
      OneDifference(start, limit, d, diffIndex);
    }
    if diffIndex < minLength {
      var diffByte := start[diffIndex];
      if diffByte < 0xff && diffByte + 1 < limit[diffIndex] {
        r := start[..diffIndex] + [diffByte + 1];
        Incremented(start, diffIndex);
        assert r[..diffIndex] == limit[..diffIndex];
        CommonPrefix(r, limit, diffIndex);
      }
    }
  }

  lemma OneDifference(a: seq<byte>, b: seq<byte>, d: nat, e: nat)
    requires FirstDifference(a, b, d) && e <= |a| && e <= |b| && a[..e] == b[..e]
    requires e == |a| || e == |b| || a[e] != b[e]
    ensures d == e
  {
    forall k | 0 <= k < e ensures a[k] == b[k] { assert a[..e][k] == b[..e][k]; }
    forall k | 0 <= k < d ensures a[k] == b[k] { assert a[..d][k] == b[..d][k]; }
  }

  /** A short key from `key` on: the first byte that can be is raised by one, and what follows is cut. */
  method FindShortSuccessor(key: seq<byte>) returns (r: seq<byte>)
    ensures r == key || (Less(key, r) && |r| <= |key|)
    ensures (forall i :: 0 <= i < |key| ==> key[i] == 0xff) ==> r == key
    ensures forall i :: 0 <= i < |key| && key[i] != 0xff && (forall j :: 0 <= j < i ==> key[j] == 0xff) ==>
              r == key[..i] + [key[i] + 1]
  {
    for i := 0 to |key|
      invariant forall j :: 0 <= j < i ==> key[j] == 0xff
    {
      if key[i] != 0xff {
        Incremented(key, i);
        return key[..i] + [key[i] + 1];
      }
    }
    return key;
  }

  /** Incrementing a byte and cutting what follows gives a greater key. */
  lemma Incremented(key: seq<byte>, i: nat)
    requires i < |key| && key[i] < 0xff
    ensures Less(key, key[..i] + [key[i] + 1])
  {
    var r := key[..i] + [key[i] + 1];
    assert r[..i] == key[..i];
    CommonPrefix(key, r, i);
  }

  // ------------------------------------------------------------ internal keys

  datatype ByteKey = ByteKey(user: seq<byte>, sequence: nat, kind: Kind) {
    function Tag(): nat {
      sequence * 256 + (if kind.Value? then 1 else 0)
    }
  }

  /** A user key, and a sequence number that fits in 56 bits. */
  ghost predicate Storable(k: ByteKey) {
    k.sequence <= MAX_SEQUENCE
  }

  predicate Before(a: ByteKey, b: ByteKey) {
    Less(a.user, b.user) || (a.user == b.user && a.Tag() > b.Tag())
  }

  lemma BeforeIsTotal(a: ByteKey, b: ByteKey)
    ensures !Before(a, a)
    ensures a == b || Before(a, b) || Before(b, a)
    ensures !(Before(a, b) && Before(b, a))
  {
    LessIsTotal(a.user, b.user);
  }

  lemma BeforeIsTransitive(a: ByteKey, b: ByteKey, c: ByteKey)
    requires Before(a, b) && Before(b, c)
    ensures Before(a, c)
  {
    if Less(a.user, b.user) && Less(b.user, c.user) {
      LessIsTransitive(a.user, b.user, c.user);
    }
  }

  /** A key that may stand in an index between `start` and `limit`: it is `start` itself, or its user key
      lies strictly between theirs. */
  ghost predicate Separates(r: ByteKey, start: ByteKey, limit: ByteKey) {
    && Before(r, limit)
    && (r == start || (Before(start, r) && Less(start.user, r.user) && Less(r.user, limit.user)))
  }

  method FindInternalSeparator(start: ByteKey, limit: ByteKey) returns (r: ByteKey)
    requires Before(start, limit)
    ensures Separates(r, start, limit)
    ensures forall d: nat :: CanShorten(start.user, limit.user, d) && d + 1 < |start.user| ==>
              r == ByteKey(start.user[..d] + [start.user[d] + 1], MAX_SEQUENCE, KIND_FOR_SEEK)
  {
    r := start;
    var tmp := FindShortestSeparator(start.user, limit.user);
    if |tmp| < |start.user| && Less(start.user, tmp) {
      LessIsTotal(start.user, tmp);
      r := ByteKey(tmp, MAX_SEQUENCE, KIND_FOR_SEEK);
    }
  }

  method FindInternalSuccessor(key: ByteKey) returns (r: ByteKey)
    ensures r == key || Less(key.user, r.user)
  {
    r := key;
    var tmp := FindShortSuccessor(key.user);
    if |tmp| < |key.user| && Less(key.user, tmp) {
      r := ByteKey(tmp, MAX_SEQUENCE, KIND_FOR_SEEK);
    }
  }
}
