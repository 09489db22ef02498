/** What the decoders of write batches and of manifest records make of bytes that are cut or spoiled. */
module Damage {
  import opened Wrappers
  import opened Bytes
  import opened Coding
  import B = WriteBatches
  import E = EditCodec

  /** The bytes from `p` on are the start of `code`, cut before its end. */
  ghost predicate CutAt(s: seq<byte>, p: nat, code: seq<byte>) {
    p <= |s| < p + |code| && s[p..] == code[..|s| - p]
  }

  lemma CutParts(s: seq<byte>, p: nat, a: seq<byte>, b: seq<byte>)
    requires CutAt(s, p, a + b)
    ensures if |s| < p + |a| then CutAt(s, p, a) else Stands(s, p, a) && CutAt(s, p + |a|, b)
  {
    var n := |s| - p;
    if n < |a| {
      assert (a + b)[..n] == a[..n];
    } else {
      assert s[p..p + |a|] == s[p..][..|a|] == a;
      assert s[p + |a|..] == s[p..][|a|..] == b[..n - |a|];
    }
  }

  lemma NumberCut(s: seq<byte>, p: nat, v: nat, count: nat)
    requires CutAt(s, p, EncodeVarint(v))
    ensures DecodeVarint(s, p, |s|, count) == None
  {
    assert s[p..|s|] == s[p..];
    VarintCut(s, p, |s|, v, count);
  }

  // ------------------------------------------------------------------- batches

  lemma SliceCut(s: seq<byte>, p: nat, data: seq<byte>)
    requires |data| < TWO_32 && CutAt(s, p, B.LengthPrefixed(data))
    ensures B.GetLengthPrefixed(s, p) == None
  {
    CutParts(s, p, EncodeVarint(|data|), data);
    if |s| < p + |EncodeVarint(|data|)| {
      NumberCut(s, p, |data|, 5);
    } else {
      Varint32RoundTrip(s, p, |s|, |data|);
    }
  }

  /** An operation that breaks off is reported as what it was to be. */
  lemma OpCut(s: seq<byte>, p: nat, op: B.Op)
    requires B.Storable(op) && p < |s| && CutAt(s, p, B.EncodeOp(op))
    ensures B.ParseOp(s, p) == B.Stop(if op.Put? then B.BadPut else B.BadDelete)
  {
    if op.Put? {
      PutCut(s, p, op, B.LengthPrefixed(op.key), B.LengthPrefixed(op.value));
    } else {
      CutParts(s, p, [B.TYPE_DELETION], B.LengthPrefixed(op.key));
      assert s[p] == s[p..p + 1][0];
      SliceCut(s, p + 1, op.key);
    }
  }

  lemma PutCut(s: seq<byte>, p: nat, op: B.Op, key: seq<byte>, value: seq<byte>)
    requires op.Put? && B.Storable(op) && key == B.LengthPrefixed(op.key) && value == B.LengthPrefixed(op.value)
    requires p < |s| && CutAt(s, p, [B.TYPE_VALUE] + (key + value))
    ensures B.ParseOp(s, p) == B.Stop(B.BadPut)
  {
    CutParts(s, p, [B.TYPE_VALUE], key + value);
    assert s[p] == s[p..p + 1][0];
    CutParts(s, p + 1, key, value);
    if |s| < p + 1 + |key| {
      SliceCut(s, p + 1, op.key);
    } else {
      B.LengthPrefixedReads(s, p + 1, op.key);
      SliceCut(s, p + 1 + |key|, op.value);
    }
  }

  /** The operations stand behind the header, and the rest stands behind them. */
  ghost predicate Holds(rep: seq<byte>, ops: seq<B.Op>, end: nat) {
    && (forall op :: op in ops ==> B.Storable(op))
    && Stands(rep, 12, B.EncodeOps(B.EncodeOp, ops)) && end == 12 + |B.EncodeOps(B.EncodeOp, ops)|
  }

  lemma OpsThen(rep: seq<byte>, ops: seq<B.Op>, end: nat)
    requires Holds(rep, ops, end)
    ensures end <= |rep| && B.ParseOps(rep, 12) == (ops + B.ParseOps(rep, end).0, B.ParseOps(rep, end).1)
  {
    B.WalkerTakes(rep);
    B.OpsRead(B.Walker(rep), B.EncodeOp, rep, 12, ops, end);
  }

  /** A batch that breaks off inside an operation hands out those before it and says which kind broke off. */
  lemma CutBatch(rep: seq<byte>, ops: seq<B.Op>, end: nat, op: B.Op)
    requires Holds(rep, ops, end) && B.Storable(op) && end < |rep| && CutAt(rep, end, B.EncodeOp(op))
    ensures B.Iterated(rep) == (ops, if op.Put? then B.BadPut else B.BadDelete)
  {
    OpsThen(rep, ops, end);
    OpCut(rep, end, op);
    assert ops + [] == ops;
  }

  /** One that ends between operations is good if and only if its count says so. */
  lemma CountedBatch(rep: seq<byte>, ops: seq<B.Op>)
    requires Holds(rep, ops, |rep|)
    ensures B.Iterated(rep) == (ops, if |ops| == DecodeFixed32(rep[8..]) then B.Ok else B.WrongCount)
  {
    OpsThen(rep, ops, |rep|);
    assert ops + [] == ops;
  }

  /** A tag that is neither 0 nor 1 ends the walk. */
  lemma UnknownTagInBatch(rep: seq<byte>, ops: seq<B.Op>, end: nat)
    requires Holds(rep, ops, end) && end < |rep| && rep[end] > 1
    ensures B.Iterated(rep) == (ops, B.UnknownTag)
  {
    OpsThen(rep, ops, end);
    assert ops + [] == ops;
  }

  /** A batch is the sequence number in eight bytes, the count in four, and the operations: 1, key and value, or
      0 and key. */
  lemma BatchLayout(rep: seq<byte>, sequence: nat, ops: seq<B.Op>)
    requires sequence < TWO_64 && |ops| < TWO_32
    requires rep == EncodeFixed64(sequence) + EncodeFixed32(|ops|) + B.EncodeOps(B.EncodeOp, ops)
    ensures B.IsBatch(rep, sequence, ops)
  {
    var body := B.EncodeOps(B.EncodeOp, ops);
    assert rep == EncodeFixed64(sequence) + (EncodeFixed32(|ops|) + body);
    Fixed64RoundTrip(sequence, EncodeFixed32(|ops|) + body);
    assert rep[8..] == EncodeFixed32(|ops|) + body;
    Fixed32RoundTrip(|ops|, body);
    assert rep[12..] == body;
  }

  lemma OpLayout(key: seq<byte>, value: seq<byte>)
    ensures B.EncodeOp(B.Put(key, value)) == [1] + EncodeVarint(|key|) + key + EncodeVarint(|value|) + value
    ensures B.EncodeOp(B.Delete(key)) == [0] + EncodeVarint(|key|) + key
  {
    var k, v := EncodeVarint(|key|) + key, EncodeVarint(|value|) + value;
    assert [1] + (k + v) == [1] + EncodeVarint(|key|) + key + EncodeVarint(|value|) + value;
    assert [0] + k == [0] + EncodeVarint(|key|) + key;
  }

  // -------------------------------------------------------------------- edits

  lemma PartCut(s: seq<byte>, part: E.Part, p: nat)
    requires part.Storable() && CutAt(s, p, E.EncodePart(part))
    ensures E.ParsePart(s, part.Kind(), p) == None
  {
    match part
    case LevelPart(n) => NumberCut(s, p, n, 5);
    case NumberPart(n) => NumberCut(s, p, n, 10);
    case TextPart(t) =>
      CutParts(s, p, EncodeVarint(|t|), t);
      if |s| < p + |EncodeVarint(|t|)| {
        NumberCut(s, p, |t|, 5);
      } else {
        Varint32RoundTrip(s, p, |s|, |t|);
      }
  }

  lemma {:induction false} PartsCut(s: seq<byte>, parts: seq<E.Part>, p: nat)
    requires E.AllStorable(parts) && CutAt(s, p, E.EncodeParts(E.EncodePart, parts))
    ensures E.ParseParts(E.PartReader(s), E.Kinds(parts), p) == None
    decreases |parts|
  {
    var code, rest := E.EncodePart(parts[0]), E.EncodeParts(E.EncodePart, parts[1..]);
    CutParts(s, p, code, rest);
    assert E.Kinds(parts)[0] == parts[0].Kind() && E.Kinds(parts)[1..] == E.Kinds(parts[1..]);
    if |s| < p + |code| {
      PartCut(s, parts[0], p);
    } else {
      E.PartRoundTrip(s, parts[0], p);
      PartsCut(s, parts[1..], p + |code|);
    }
  }

  lemma FieldCut(s: seq<byte>, f: E.Field, p: nat)
    requires E.ValidField(f) && p < |s| && CutAt(s, p, E.EncodeField(f))
    ensures E.ParseField(s, p) == E.Bad(f.tag)
  {
    CutParts(s, p, EncodeVarint(f.tag), E.EncodeParts(E.EncodePart, f.parts));
    assert f.tag < 128;
    Varint32RoundTrip(s, p, |s|, f.tag);
    PartsCut(s, f.parts, p + 1);
  }

  /** The fields stand at the start, and the rest stands behind them. */
  ghost predicate HasFields(s: seq<byte>, fields: seq<E.Field>, end: nat) {
    && E.AllFields(fields) && Stands(s, 0, E.EncodeFields(E.EncodeField, fields))
    && end == |E.EncodeFields(E.EncodeField, fields)|
  }

  lemma EditThen(e: E.Edit, s: seq<byte>, fields: seq<E.Field>, end: nat)
    requires HasFields(s, fields, end)
    ensures end <= |s| && E.Forward(E.FieldReader(s), |s|)
    ensures E.Decode(e, s) == E.DecodeFields(E.FieldReader(s), E.ApplyAll(E.Cleared(e), fields), |s|, end)
  {
    E.ReaderIsForward(s);
    E.ReaderReadsFields(s);
    E.FieldsThen(E.FieldReader(s), E.EncodeField, E.Cleared(e), fields, s, 0, end);
  }

  /** An edit that breaks off inside a field is corrupt, and the tag of the field is reported. */
  lemma CutEdit(e: E.Edit, s: seq<byte>, fields: seq<E.Field>, end: nat, f: E.Field)
    requires HasFields(s, fields, end) && E.ValidField(f) && end < |s| && CutAt(s, end, E.EncodeField(f))
    ensures E.Decode(e, s) == E.Corruption(Some(f.tag))
  {
    EditThen(e, s, fields, end);
    FieldCut(s, f, end);
  }

  /** The tags are 1 to 7 and 9; any other is corruption. */
  lemma UnknownTagInEdit(e: E.Edit, s: seq<byte>, fields: seq<E.Field>, end: nat, tag: nat)
    requires HasFields(s, fields, end) && Stands(s, end, EncodeVarint(tag)) && tag < TWO_32
    requires !(1 <= tag <= 7 || tag == 9)
    ensures E.Decode(e, s) == E.Corruption(Some(tag))
  {
    EditThen(e, s, fields, end);
    Varint32RoundTrip(s, end, |s|, tag);
  }

  /** So is a level beyond the last. */
  lemma LevelIsChecked(e: E.Edit, s: seq<byte>, fields: seq<E.Field>, end: nat, tag: nat, level: nat)
    requires 5 <= tag <= 7 && 7 <= level < TWO_32
    requires HasFields(s, fields, end) && Stands(s, end, [tag as byte] + EncodeVarint(level))
    ensures E.Decode(e, s) == E.Corruption(Some(tag))
  {
    EditThen(e, s, fields, end);
    StandsParts(s, end, [tag as byte], EncodeVarint(level));
    assert EncodeVarint(tag) == [tag as byte];
    Varint32RoundTrip(s, end, |s|, tag);
    Varint32RoundTrip(s, end + 1, |s|, level);
    var kinds := E.Shape(tag).value;
    assert kinds[0] == E.Level;
    assert E.PartReader(s)(kinds[0], end + 1) == None;
  }

  /** The fields in bytes: log number, next file number, last sequence number and previous log number. */
  lemma NumberLayout(tag: nat, number: nat)
    requires tag == 2 || tag == 3 || tag == 4 || tag == 9
    ensures E.Shape(tag) == Some([E.Number])
    ensures E.EncodeField(E.Field(tag, [E.NumberPart(number)])) == [tag as byte] + EncodeVarint(number)
  {
    OnePart(E.EncodePart, E.NumberPart(number));
  }

  /** The name of the comparator. */
  lemma ComparatorLayout(text: seq<byte>)
    ensures E.EncodeField(E.Field(1, [E.TextPart(text)])) == [1] + (EncodeVarint(|text|) + text)
  {
    OnePart(E.EncodePart, E.TextPart(text));
  }

  /** A compaction pointer: level and key. */
  lemma PointerLayout(level: nat, text: seq<byte>)
    requires level < 7
    ensures E.EncodeField(E.PointerField((level, text))) == [5] + ([level as byte] + (EncodeVarint(|text|) + text))
  {
    TwoParts(E.EncodePart, E.LevelPart(level), E.TextPart(text));
  }

  /** A deleted file: level and number. */
  lemma DeletedLayout(level: nat, number: nat)
    requires level < 7
    ensures E.EncodeField(E.DeletedField((level, number))) == [6] + ([level as byte] + EncodeVarint(number))
  {
    TwoParts(E.EncodePart, E.LevelPart(level), E.NumberPart(number));
  }

  /** A new file: level, number, size, smallest and largest key. */
  lemma NewFileLayout(level: nat, f: E.NewFile)
    requires level < 7
    ensures E.EncodeField(E.NewFileField((level, f)))
         == [7] + ([level as byte] + (EncodeVarint(f.number) + (EncodeVarint(f.size)
            + ((EncodeVarint(|f.smallest|) + f.smallest) + (EncodeVarint(|f.largest|) + f.largest)))))
  {
    var a, b, c, d, e := E.LevelPart(level), E.NumberPart(f.number), E.NumberPart(f.size), E.TextPart(f.smallest),
      E.TextPart(f.largest);
    TwoParts(E.EncodePart, d, e);
    assert [c, d, e][1..] == [d, e] && [b, c, d, e][1..] == [c, d, e] && [a, b, c, d, e][1..] == [b, c, d, e];
    assert E.EncodeParts(E.EncodePart, [c, d, e]) == E.EncodePart(c) + E.EncodeParts(E.EncodePart, [d, e]);
    assert E.EncodeParts(E.EncodePart, [b, c, d, e]) == E.EncodePart(b) + E.EncodeParts(E.EncodePart, [c, d, e]);
  }

  lemma OnePart(put: E.Part -> seq<byte>, a: E.Part)
    ensures E.EncodeParts(put, [a]) == put(a)
  {
    assert [a][1..] == [] && put(a) + [] == put(a);
  }

  lemma TwoParts(put: E.Part -> seq<byte>, a: E.Part, b: E.Part)
    ensures E.EncodeParts(put, [a, b]) == put(a) + put(b)
  {
    assert [a, b][1..] == [b];
    OnePart(put, b);
  }
}
