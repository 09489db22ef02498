/** Write batches as bytes, which is also how the log stores them (db/write_batch.cc). */
module WriteBatches {
  import opened Wrappers
  import opened Bytes
  import opened Coding

  datatype Op = Put(key: seq<byte>, value: seq<byte>) | Delete(key: seq<byte>)

  /** An entry as it goes into the memtable. */
  datatype Added = Added(sequence: nat, op: Op)

  const HEADER: nat := 12
  const TYPE_DELETION: byte := 0
  const TYPE_VALUE: byte := 1

  function LengthPrefixed(data: seq<byte>): (r: seq<byte>)
    ensures |r| > 0
  {
    EncodeVarint(|data|) + data
  }

  function EncodeOp(op: Op): (r: seq<byte>)
    ensures |r| > 0
  {
    match op
    case Put(key, value) => [TYPE_VALUE] + (LengthPrefixed(key) + LengthPrefixed(value))
    case Delete(key) => [TYPE_DELETION] + LengthPrefixed(key)
  }

  function EncodeOps(put: Op -> seq<byte>, ops: seq<Op>): seq<byte> {
    if ops == [] then [] else put(ops[0]) + EncodeOps(put, ops[1..])
  }

  ghost predicate Storable(op: Op) {
    |op.key| < TWO_32 && (op.Put? ==> |op.value| < TWO_32)
  }

  // ------------------------------------------------------------------ reading

  datatype Slice = Slice(data: seq<byte>, next: nat)

  function GetLengthPrefixed(s: seq<byte>, p: nat): (r: Option<Slice>)
    requires p <= |s|
    ensures r.Some? ==> p < r.value.next <= |s|
  {
    match GetVarint32(s, p, |s|)
    case None => None
    case Some(d) => if |s| - d.next < d.value then None else Some(Slice(s[d.next..d.next + d.value], d.next + d.value))
  }

  datatype Status = Ok | TooSmall | BadPut | BadDelete | UnknownTag | WrongCount

  /** The operation at `p` and where it ends, or what is wrong with it. */
  datatype Step = Step(op: Op, next: nat) | Stop(status: Status)

  function ParseOp(s: seq<byte>, p: nat): (r: Step)
    requires p < |s|
    ensures r.Step? ==> p < r.next <= |s|
  {
    if s[p] == TYPE_VALUE then
      match GetLengthPrefixed(s, p + 1)
      case None => Stop(BadPut)
      case Some(key) =>
        match GetLengthPrefixed(s, key.next)
        case None => Stop(BadPut)
        case Some(value) => Step(Put(key.data, value.data), value.next)
    else if s[p] == TYPE_DELETION then
      match GetLengthPrefixed(s, p + 1)
      case None => Stop(BadDelete)
      case Some(key) => Step(Delete(key.data), key.next)
    else Stop(UnknownTag)
  }

  /** What a handler is given from `p` on, and how the walk ends. */
  function ParseOps(s: seq<byte>, p: nat): (r: (seq<Op>, Status))
    requires p <= |s|
    decreases |s| - p
  {
    if p == |s| then ([], Ok) else
      match ParseOp(s, p)
      case Stop(status) => ([], status)
      case Step(op, next) =>
        var rest := ParseOps(s, next);
        ([op] + rest.0, rest.1)
  }

  function Count(rep: seq<byte>): nat
    requires |rep| >= HEADER
  {
    DecodeFixed32(rep[8..])
  }

  function Sequence(rep: seq<byte>): nat
    requires |rep| >= HEADER
  {
    DecodeFixed64(rep)
  }

  function Iterated(rep: seq<byte>): (seq<Op>, Status) {
    if |rep| < HEADER then ([], TooSmall) else
      var all := ParseOps(rep, HEADER);
      if all.1 == Ok && |all.0| != Count(rep) then (all.0, WrongCount) else all
  }

  /** `rep` is the batch of these operations, to be applied from this sequence number on. */
  ghost predicate IsBatch(rep: seq<byte>, sequence: nat, ops: seq<Op>) {
    && |rep| >= HEADER && Sequence(rep) == sequence && Count(rep) == |ops|
    && rep[HEADER..] == EncodeOps(EncodeOp, ops)
  }

  // -------------------------------------------------------------- round trip

  lemma LengthPrefixedReads(s: seq<byte>, p: nat, data: seq<byte>)
    requires |data| < TWO_32 && Stands(s, p, LengthPrefixed(data))
    ensures GetLengthPrefixed(s, p) == Some(Slice(data, p + |LengthPrefixed(data)|))
  {
    StandsParts(s, p, EncodeVarint(|data|), data);
    Varint32RoundTrip(s, p, |s|, |data|);
  }

  lemma OpReads(s: seq<byte>, p: nat, op: Op)
    requires Storable(op) && Stands(s, p, EncodeOp(op))
    ensures ParseOp(s, p) == Step(op, p + |EncodeOp(op)|)
  {
    assert s[p] == s[p..p + |EncodeOp(op)|][0];
    if op.Put? {
      PutReads(s, p, LengthPrefixed(op.key), LengthPrefixed(op.value), op);
    } else {
      StandsParts(s, p, [TYPE_DELETION], LengthPrefixed(op.key));
      LengthPrefixedReads(s, p + 1, op.key);
    }
  }

  lemma PutReads(s: seq<byte>, p: nat, key: seq<byte>, value: seq<byte>, op: Op)
    requires op.Put? && Storable(op) && key == LengthPrefixed(op.key) && value == LengthPrefixed(op.value)
    requires Stands(s, p, [TYPE_VALUE] + (key + value)) && s[p] == TYPE_VALUE
    ensures ParseOp(s, p) == Step(op, p + 1 + |key| + |value|)
  {
    StandsParts(s, p, [TYPE_VALUE], key + value);
    StandsParts(s, p + 1, key, value);
    LengthPrefixedReads(s, p + 1, op.key);
    LengthPrefixedReads(s, p + 1 + |key|, op.value);
    PutStep(s, p, op, p + 1 + |key|, p + 1 + |key| + |value|);
  }

  lemma PutStep(s: seq<byte>, p: nat, op: Op, q: nat, r: nat)
    requires op.Put? && p < |s| && s[p] == TYPE_VALUE && p + 1 <= q <= r <= |s|
    requires GetLengthPrefixed(s, p + 1) == Some(Slice(op.key, q))
    requires GetLengthPrefixed(s, q) == Some(Slice(op.value, r))
    ensures ParseOp(s, p) == Step(op, r)
  {
  }

  type Walk = nat -> (seq<Op>, Status)

  function Walker(s: seq<byte>): Walk {
    (p: nat) => if p <= |s| then ParseOps(s, p) else ([], Ok)
  }

  function Prepend(op: Op, after: (seq<Op>, Status)): (seq<Op>, Status) {
    ([op] + after.0, after.1)
  }

  /** The walk takes an operation that stands at its position first. */
  ghost predicate Takes(walk: Walk, put: Op -> seq<byte>, s: seq<byte>) {
    forall p: nat, op {:trigger Stands(s, p, put(op))} ::
      Storable(op) && Stands(s, p, put(op)) ==> walk(p) == Prepend(op, walk(p + |put(op)|))
  }

  lemma OpStep(s: seq<byte>, p: nat, op: Op, code: seq<byte>)
    requires p + |code| <= |s| && |code| > 0 && ParseOp(s, p) == Step(op, p + |code|)
    ensures Walker(s)(p) == Prepend(op, Walker(s)(p + |code|))
  {
  }

  lemma WalkerTakes(s: seq<byte>)
    ensures Takes(Walker(s), EncodeOp, s)
  {
    forall p: nat, op | Storable(op) && Stands(s, p, EncodeOp(op))
      ensures Walker(s)(p) == Prepend(op, Walker(s)(p + |EncodeOp(op)|))
    {
      WalkerTakesOne(s, p, op, EncodeOp(op));
    }
  }

  lemma WalkerTakesOne(s: seq<byte>, p: nat, op: Op, code: seq<byte>)
    requires Storable(op) && code == EncodeOp(op) && Stands(s, p, code)
    ensures Walker(s)(p) == Prepend(op, Walker(s)(p + |code|))
  {
    OpReads(s, p, op);
    OpStep(s, p, op, code);
  }

  lemma FirstOfAll<T>(all: seq<T>, more: seq<T>)
    requires all != []
    ensures [all[0]] + (all[1..] + more) == all + more
  {
  }

  /** A walk from `p` takes all the operations up to `end` before what it meets there. */
  lemma {:induction false} OpsRead(walk: Walk, put: Op -> seq<byte>, s: seq<byte>, p: nat, ops: seq<Op>, end: nat)
    requires Takes(walk, put, s) && forall op :: op in ops ==> Storable(op)
    requires Stands(s, p, EncodeOps(put, ops)) && end == p + |EncodeOps(put, ops)|
    ensures walk(p) == (ops + walk(end).0, walk(end).1)
    decreases |ops|
  {
    if ops == [] {
      assert ops + walk(end).0 == walk(end).0;
    } else {
      StandsParts(s, p, put(ops[0]), EncodeOps(put, ops[1..]));
      OpsRead(walk, put, s, p + |put(ops[0])|, ops[1..], end);
      FirstOfAll(ops, walk(end).0);
    }
  }

  /** A batch gives back its operations in order. */
  lemma BatchReads(rep: seq<byte>, sequence: nat, ops: seq<Op>)
    requires IsBatch(rep, sequence, ops) && forall op :: op in ops ==> Storable(op)
    ensures Iterated(rep) == (ops, Ok)
  {
    assert Stands(rep, HEADER, EncodeOps(EncodeOp, ops));
    WalkerTakes(rep);
    OpsRead(Walker(rep), EncodeOp, rep, HEADER, ops, |rep|);
    assert ops + [] == ops;
  }

  /** `rep` with other bytes for its count, and more bytes behind it. */
  function Grown(rep: seq<byte>, count: seq<byte>, more: seq<byte>): seq<byte>
    requires |rep| >= HEADER
  {
    rep[..8] + count + rep[HEADER..] + more
  }

  lemma GrownParts(rep: seq<byte>, count: seq<byte>, more: seq<byte>)
    requires |rep| >= HEADER && |count| == 4
    ensures var after := Grown(rep, count, more);
            && |after| >= HEADER && Count(after) == DecodeFixed32(count) && Sequence(after) == Sequence(rep)
            && after[HEADER..] == rep[HEADER..] + more
  {
    var after := Grown(rep, count, more);
    assert after[8..] == count + (rep[HEADER..] + more);
    Fixed64Prefix(after, rep);
  }

  lemma {:induction false} OpsAppend(put: Op -> seq<byte>, ops: seq<Op>, more: seq<Op>)
    ensures EncodeOps(put, ops + more) == EncodeOps(put, ops) + EncodeOps(put, more)
    decreases |ops|
  {
    if ops == [] {
      assert ops + more == more;
    } else {
      OpsAppend(put, ops[1..], more);
      assert (ops + more)[1..] == ops[1..] + more;
    }
  }

  lemma Appends(rep: seq<byte>, sequence: nat, ops: seq<Op>, more: seq<Op>, count: seq<byte>)
    requires IsBatch(rep, sequence, ops) && |count| == 4 && DecodeFixed32(count) == |ops| + |more|
    ensures IsBatch(Grown(rep, count, EncodeOps(EncodeOp, more)), sequence, ops + more)
  {
    GrownParts(rep, count, EncodeOps(EncodeOp, more));
    OpsAppend(EncodeOp, ops, more);
  }

  lemma AppendsBatch(rep: seq<byte>, given: seq<byte>, count: seq<byte>)
    requires |rep| >= HEADER && |given| >= HEADER
    requires |count| == 4 && DecodeFixed32(count) == (Count(rep) + Count(given)) % TWO_32
    ensures forall s, t, ops, more :: IsBatch(rep, s, ops) && IsBatch(given, t, more) && |ops| + |more| < TWO_32 ==>
              IsBatch(Grown(rep, count, given[HEADER..]), s, ops + more)
  {
    forall s, t, ops, more | IsBatch(rep, s, ops) && IsBatch(given, t, more) && |ops| + |more| < TWO_32
      ensures IsBatch(Grown(rep, count, given[HEADER..]), s, ops + more)
    {
      Appends(rep, s, ops, more, count);
    }
  }

  lemma OneOp(put: Op -> seq<byte>, op: Op)
    ensures EncodeOps(put, [op]) == put(op)
  {
    assert [op][1..] == [] && put(op) + [] == put(op);
  }

  lemma Extends(rep: seq<byte>, op: Op, count: seq<byte>)
    requires |rep| >= HEADER && |count| == 4 && DecodeFixed32(count) == (Count(rep) + 1) % TWO_32
    ensures forall s, ops :: IsBatch(rep, s, ops) && |ops| + 1 < TWO_32 ==>
              IsBatch(Grown(rep, count, EncodeOp(op)), s, ops + [op])
  {
    forall s, ops | IsBatch(rep, s, ops) && |ops| + 1 < TWO_32
      ensures IsBatch(Grown(rep, count, EncodeOp(op)), s, ops + [op])
    {
      Appends(rep, s, ops, [op], count);
      OneOp(EncodeOp, op);
    }
  }

  lemma SequenceSet(rep: seq<byte>, sequence: nat)
    requires |rep| >= HEADER && sequence < TWO_64
    ensures var after := EncodeFixed64(sequence) + rep[8..];
            |after| >= HEADER && Sequence(after) == sequence && Count(after) == Count(rep)
              && after[HEADER..] == rep[HEADER..]
  {
    var code := EncodeFixed64(sequence);
    assert (code + rep[8..])[8..] == rep[8..];
    Fixed64RoundTrip(sequence, rep[8..]);
  }

  // -------------------------------------------------------------- the batch

  class WriteBatch {
    var rep: seq<byte>

    constructor ()
      ensures IsBatch(rep, 0, [])
    {
      rep := seq(HEADER, _ => 0 as byte);
      new;
      assert rep == EncodeFixed64(0) + EncodeFixed32(0);
      assert rep[8..] == EncodeFixed32(0);
    }

    /** The count is stored in 32 bits. */
    method SetCount(n: nat) returns (ghost code: seq<byte>)
      requires |rep| >= HEADER
      modifies this
      ensures |code| == 4 && DecodeFixed32(code) == n % TWO_32 && rep == Grown(old(rep), code, [])
    {
      code := EncodeFixed32(n % TWO_32);
      Fixed32RoundTrip(n % TWO_32, []);
      assert EncodeFixed32(n % TWO_32) + [] == code;
      rep := rep[..8] + EncodeFixed32(n % TWO_32) + rep[HEADER..];
      assert rep == Grown(old(rep), code, []);
    }

    method SetSequence(sequence: nat)
      requires |rep| >= HEADER && sequence < TWO_64
      modifies this
      ensures rep == EncodeFixed64(sequence) + old(rep)[8..]
      ensures forall s, ops :: IsBatch(old(rep), s, ops) ==> IsBatch(rep, sequence, ops)
    {
      SequenceSet(rep, sequence);
      rep := EncodeFixed64(sequence) + rep[8..];
    }

    method Put(key: seq<byte>, value: seq<byte>)
      requires |rep| >= HEADER
      modifies this
      ensures forall s, ops :: IsBatch(old(rep), s, ops) && |ops| + 1 < TWO_32 ==>
                IsBatch(rep, s, ops + [Op.Put(key, value)])
    {
      ghost var before := rep;
      ghost var code := SetCount(Count(rep) + 1);
      rep := rep + [TYPE_VALUE];
      rep := rep + LengthPrefixed(key);
      rep := rep + LengthPrefixed(value);
      Extends(before, Op.Put(key, value), code);
      assert rep == Grown(before, code, EncodeOp(Op.Put(key, value)));
    }

    method Delete(key: seq<byte>)
      requires |rep| >= HEADER
      modifies this
      ensures forall s, ops :: IsBatch(old(rep), s, ops) && |ops| + 1 < TWO_32 ==>
                IsBatch(rep, s, ops + [Op.Delete(key)])
    {
      ghost var before := rep;
      ghost var code := SetCount(Count(rep) + 1);
      rep := rep + [TYPE_DELETION];
      rep := rep + LengthPrefixed(key);
      Extends(before, Op.Delete(key), code);
      assert rep == Grown(before, code, EncodeOp(Op.Delete(key)));
    }

    /** The operations of the other batch follow, also if that is this batch itself; the sequence number is
        this one's. */
    method Append(source: WriteBatch)
      requires |rep| >= HEADER && |source.rep| >= HEADER
      modifies this
      ensures forall s, t, ops, more ::
                IsBatch(old(rep), s, ops) && IsBatch(old(source.rep), t, more) && |ops| + |more| < TWO_32 ==>
                  IsBatch(rep, s, ops + more)
    {
      ghost var before, given := rep, source.rep;
      ghost var code := SetCount(Count(rep) + Count(source.rep));
      assert source.rep[HEADER..] == given[HEADER..];
      rep := rep + source.rep[HEADER..];
      assert rep == Grown(before, code, given[HEADER..]);
      AppendsBatch(before, given, code);
    }

    /** Hands the operations to a handler, one by one. */
    method Iterate() returns (ops: seq<Op>, status: Status)
      ensures (ops, status) == Iterated(rep)
    {
      ops := [];
      if |rep| < HEADER {
        return ops, TooSmall;
      }
      ghost var goal := ParseOps(rep, HEADER);
      var p, found := HEADER, 0;
      assert [] + goal.0 == goal.0;
      while p < |rep|
        invariant HEADER <= p <= |rep| && found == |ops|
        invariant goal == (ops + ParseOps(rep, p).0, ParseOps(rep, p).1)
        decreases |rep| - p
      {
        match ParseOp(rep, p)
        case Stop(error) =>
          assert ops + [] == ops;
          return ops, error;
        case Step(op, next) =>
          assert ops + ([op] + ParseOps(rep, next).0) == ops + [op] + ParseOps(rep, next).0;
          ops, p, found := ops + [op], next, found + 1;
      }
      assert ops + [] == ops;
      status := if found != Count(rep) then WrongCount else Ok;
    }

    /** The handler that inserts numbers the operations from the batch's sequence on, even those before
        a malformed one. */
    method InsertInto() returns (added: seq<Added>, status: Status)
      requires |rep| >= HEADER
      ensures status == Iterated(rep).1 && |added| == |Iterated(rep).0|
      ensures forall i :: 0 <= i < |added| ==> added[i] == Added(Sequence(rep) + i, Iterated(rep).0[i])
    {
      var sequence := Sequence(rep);
      var ops;
      ops, status := Iterate();
      added := [];
      for i := 0 to |ops|
        invariant |added| == i && sequence == Sequence(rep) + i
        invariant forall k :: 0 <= k < i ==> added[k] == Added(Sequence(rep) + k, ops[k])
      {
        added := added + [Added(sequence, ops[i])];
        sequence := sequence + 1;
      }
    }
  }
}
