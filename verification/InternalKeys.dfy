/** Internal keys: a user key tagged with the sequence number of the write and the kind of the
    write, ordered as the engine orders them everywhere (db/dbformat.h, db/dbformat.cc).

    User keys are integers.  The engine only ever compares them with the user comparator, and any
    finite set of keys under a total order embeds in the integers. */
module InternalKeys {

  type UserKey = int

  /** The largest sequence number: 56 bits, so that a sequence and a kind share 64 bits. */
  const MAX_SEQUENCE: nat := 0xFF_FFFF_FFFF_FFFF

  datatype Kind = Deletion | Value

  /** The kind used in keys built for seeking: the highest one, so that a lookup key comes at or
      before every stored key of the same user key and sequence. */
  const KIND_FOR_SEEK: Kind := Value

  datatype InternalKey = InternalKey(user: UserKey, sequence: nat, kind: Kind) {
    /** The packed trailer: sequence in the high bits, kind in the low eight. */
    function Tag(): nat {
      sequence * 256 + (if kind.Value? then 1 else 0)
    }
  }

  datatype Entry = Entry(key: InternalKey, value: string)

  /** The internal key order: user keys ascending, then tags descending. */
  predicate Precedes(a: InternalKey, b: InternalKey) {
    a.user < b.user || (a.user == b.user && a.Tag() > b.Tag())
  }

  function LookupKey(user: UserKey, snapshot: nat): InternalKey {
    InternalKey(user, snapshot, KIND_FOR_SEEK)
  }

  /** Strictly increasing in the internal key order. */
  ghost predicate Sorted(run: seq<Entry>) {
    forall i, j :: 0 <= i < j < |run| ==> Precedes(run[i].key, run[j].key)
  }

  lemma PrecedesIsTotalOrder(a: InternalKey, b: InternalKey, c: InternalKey)
    ensures !(Precedes(a, a))
    ensures Precedes(a, b) && Precedes(b, c) ==> Precedes(a, c)
    ensures a == b || Precedes(a, b) || Precedes(b, a)
  {
  }
}
