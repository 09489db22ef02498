/** Streams that this encoder would not write: with fields the descriptor does not have, or without some
    that it requires. */
module PbStreams {
  import opened Wrappers
  import opened Bytes
  import opened Coding
  import opened PbDecoding
  import opened PbEncoding
  import opened PbFields
  import opened PbMerging
  import opened PbRoundTrip
  import opened PbWire

  // ------------------------------------------------------------ unknown fields

  /** A field as some other descriptor may have it. */
  datatype Foreign =
    | ForeignVarint(tag: nat, n: nat)
    | Foreign64(tag: nat, n: nat)
    | ForeignBytes(tag: nat, data: seq<byte>)
    | Foreign32(tag: nat, n: nat)

  ghost predicate IsForeign(fields: seq<Field>, f: Foreign) {
    && 0 < f.tag < 0x2000_0000
    && (forall i :: 0 <= i < |fields| ==> fields[i].tag != f.tag)
    && match f
       case ForeignVarint(_, n) => n < TWO_64
       case Foreign64(_, n) => n < TWO_64
       case ForeignBytes(_, data) => |data| < TWO_32
       case Foreign32(_, n) => n < TWO_32
  }

  /** The wire types 0, 1, 2 and 5. */
  function ForeignWire(f: Foreign): (w: nat)
    ensures w < 8
  {
    match f
    case ForeignVarint(_, _) => 0
    case Foreign64(_, _) => 1
    case ForeignBytes(_, _) => 2
    case Foreign32(_, _) => 5
  }

  ghost function Payload(fields: seq<Field>, f: Foreign): seq<byte>
    requires IsForeign(fields, f)
  {
    match f
    case ForeignVarint(_, n) => EncodeVarint(n)
    case Foreign64(_, n) => EncodeFixed64(n)
    case ForeignBytes(_, data) => EncodeString(data)
    case Foreign32(_, n) => EncodeFixed32(n)
  }

  ghost function ForeignCode(fields: seq<Field>, f: Foreign): seq<byte>
    requires IsForeign(fields, f)
  {
    EncodeTag(ForeignWire(f), f.tag) + Payload(fields, f)
  }

  /** A varint of any length is passed over. */
  lemma {:induction false} VarintSkips(v: nat, rest: Stream)
    ensures SkipVarint(EncodeVarint(v) + rest) == Some(rest)
    decreases v
  {
    var s := EncodeVarint(v) + rest;
    if v < 128 {
      assert s[1..] == rest;
    } else {
      VarintSkips(v / 128, rest);
      assert s[1..] == EncodeVarint(v / 128) + rest;
    }
  }

  lemma PayloadSkips(fields: seq<Field>, f: Foreign, rest: Stream)
    requires IsForeign(fields, f)
    ensures SkipField(Payload(fields, f) + rest, ForeignWire(f)) == Some(rest)
  {
    match f
    case ForeignVarint(_, n) => VarintSkips(n, rest);
    case Foreign64(_, n) => assert (EncodeFixed64(n) + rest)[8..] == rest;
    case ForeignBytes(_, data) => StringReads(data, rest);
    case Foreign32(_, n) => assert (EncodeFixed32(n) + rest)[4..] == rest;
  }

  /** A field that the descriptor does not have is passed over, whatever its type. */
  lemma ForeignSkips(fields: seq<Field>, f: Foreign, m: Message, seen: set<nat>, rest: Stream)
    requires IsForeign(fields, f) && |m| == |fields|
    ensures DecodeLoop(fields, m, seen, ForeignCode(fields, f) + rest) == DecodeLoop(fields, m, seen, rest)
  {
    var key, body := EncodeTag(ForeignWire(f), f.tag), Payload(fields, f);
    assert key + body + rest == key + (body + rest);
    TagReads(ForeignWire(f), f.tag, body + rest);
    NotFound(fields, f.tag, 0);
    PayloadSkips(fields, f, rest);
  }

  lemma {:induction false} NotFound(fields: seq<Field>, tag: nat, from: nat)
    requires from <= |fields| && forall i :: 0 <= i < |fields| ==> fields[i].tag != tag
    ensures IndexOf(fields, tag, from) == None
  {
    var i := IndexOf(fields, tag, from);
  }

  /** Groups and the wire types not defined are refused. */
  lemma OtherWireTypesFail(fields: seq<Field>, tag: nat, wire: nat, m: Message, seen: set<nat>, rest: Stream)
    requires 0 < tag < 0x2000_0000 && |m| == |fields| && forall i :: 0 <= i < |fields| ==> fields[i].tag != tag
    requires wire < 8 && wire != 0 && wire != 1 && wire != 2 && wire != 5
    ensures DecodeLoop(fields, m, seen, EncodeTag(wire, tag) + rest) == None
  {
    TagReads(wire, tag, rest);
    NotFound(fields, tag, 0);
  }

  ghost predicate AllForeign(fields: seq<Field>, list: seq<Foreign>) {
    forall k :: 0 <= k < |list| ==> IsForeign(fields, list[k])
  }

  ghost function ForeignCodes(fields: seq<Field>, list: seq<Foreign>): seq<byte>
    requires AllForeign(fields, list)
  {
    if list == [] then [] else ForeignCode(fields, list[0]) + ForeignCodes(fields, list[1..])
  }

  lemma {:induction false} AllForeignSkip(fields: seq<Field>, list: seq<Foreign>, m: Message, seen: set<nat>,
                                          rest: Stream)
    requires AllForeign(fields, list) && |m| == |fields|
    ensures DecodeLoop(fields, m, seen, ForeignCodes(fields, list) + rest) == DecodeLoop(fields, m, seen, rest)
    decreases |list|
  {
    if list == [] {
      assert [] + rest == rest;
    } else {
      var first, more := ForeignCode(fields, list[0]), ForeignCodes(fields, list[1..]);
      assert first + more + rest == first + (more + rest);
      ForeignSkips(fields, list[0], m, seen, more + rest);
      AllForeignSkip(fields, list[1..], m, seen, rest);
    }
  }

  // ------------------------------------------------------------ missing fields

  /** Required fields that the stream leaves out; the message has their defaults. */
  ghost predicate LeftOut(fields: seq<Field>, m: Message, gone: set<nat>) {
    |m| == |fields| && forall j :: j in gone ==>
      j < |fields| && fields[j].rule.Required? && m[j] == DefaultSlot(fields[j])
  }

  /** Foreign fields for every place before, between and behind the fields. */
  ghost predicate ForeignBetween(fields: seq<Field>, foreign: seq<seq<Foreign>>) {
    |foreign| == |fields| + 1 && forall k :: 0 <= k < |foreign| ==> AllForeign(fields, foreign[k])
  }

  /** The code of the fields from `i` on without those in `gone`, with foreign fields before each of them and
      at the end. */
  ghost function EncodeAmong(fields: seq<Field>, m: Message, foreign: seq<seq<Foreign>>, gone: set<nat>,
                             i: nat): seq<byte>
    requires IsMessage(fields, m) && i <= |fields| && EncodeFrom(fields, m, i).Some?
    requires ForeignBetween(fields, foreign)
    decreases |fields| - i
  {
    ForeignCodes(fields, foreign[i])
    + if i == |fields| then [] else
        FieldCode(fields, m, gone, i) + EncodeAmong(fields, m, foreign, gone, i + 1)
  }

  ghost function FieldCode(fields: seq<Field>, m: Message, gone: set<nat>, i: nat): seq<byte>
    requires IsMessage(fields, m) && i < |fields| && EncodeField(fields[i], m[i]).Some?
  {
    if i in gone then [] else EncodeField(fields[i], m[i]).value
  }

  /** The flags raised by the fields before `i`. */
  ghost function SeenBut(fields: seq<Field>, gone: set<nat>, i: nat): set<nat>
    requires i <= |fields|
  {
    if i == 0 then {} else
      var before := SeenBut(fields, gone, i - 1);
      if i - 1 in gone then before else Mark(fields, before, i - 1)
  }

  lemma GoneReads(fields: seq<Field>, m: Message, gone: set<nat>, i: nat)
    requires WellFormed(fields) && IsMessage(fields, m) && LeftOut(fields, m, gone) && i in gone
    requires EncodeField(fields[i], m[i]).Some?
    ensures Partly(fields, Defaults(fields), m, i + 1) == Partly(fields, Defaults(fields), m, i)
    ensures SlotTerminated(fields[i], m[i])
  {
    var x := Defaults(fields);
    assert WellFormedField(fields[i]) && IsSlot(fields[i], m[i]);
    FieldHasCode(fields[i], m[i]);
    MergeIntoDefaultSlot(fields[i], m[i]);
    PartlyOne(fields, x, m, i);
    DefaultTerminated(fields[i].kind);
    assert Partly(fields, x, m, i)[i := x[i]] == Partly(fields, x, m, i);
  }

  ghost predicate RestTerminated(fields: seq<Field>, m: Message, i: nat)
    requires |m| == |fields|
  {
    forall j :: i <= j < |fields| ==> SlotTerminated(fields[j], m[j])
  }

  lemma {:induction false} AmongReads(fields: seq<Field>, m: Message, foreign: seq<seq<Foreign>>, gone: set<nat>,
                                      i: nat)
    requires WellFormed(fields) && IsMessage(fields, m) && i <= |fields| && LeftOut(fields, m, gone)
    requires EncodeFrom(fields, m, i).Some? && |EncodeFrom(fields, m, i).value| < TWO_32
    requires ForeignBetween(fields, foreign)
    ensures DecodeLoop(fields, Partly(fields, Defaults(fields), m, i), SeenBut(fields, gone, i),
                       EncodeAmong(fields, m, foreign, gone, i))
         == if RestTerminated(fields, m, i)
            then DecodeLoop(fields, Merge(fields, Defaults(fields), m), SeenBut(fields, gone, |fields|), []) else None
    decreases |fields| - i
  {
    var x := Defaults(fields);
    if i == |fields| {
      AllForeignSkip(fields, foreign[i], Partly(fields, x, m, i), SeenBut(fields, gone, i), []);
      PartlyEnds(fields, x, m);
    } else {
      AmongReads(fields, m, foreign, gone, i + 1);
      AmongStep(fields, m, foreign[i], gone, i, EncodeAmong(fields, m, foreign, gone, i + 1));
    }
  }

  /** The foreign fields before field `i`, and the field itself if it is not left out. */
  lemma AmongStep(fields: seq<Field>, m: Message, list: seq<Foreign>, gone: set<nat>, i: nat, rest: Stream)
    requires WellFormed(fields) && IsMessage(fields, m) && i < |fields| && LeftOut(fields, m, gone)
    requires EncodeField(fields[i], m[i]).Some? && |EncodeField(fields[i], m[i]).value| < TWO_32
    requires AllForeign(fields, list)
    ensures DecodeLoop(fields, Partly(fields, Defaults(fields), m, i), SeenBut(fields, gone, i),
                       ForeignCodes(fields, list) + (FieldCode(fields, m, gone, i) + rest))
         == if SlotTerminated(fields[i], m[i])
            then DecodeLoop(fields, Partly(fields, Defaults(fields), m, i + 1), SeenBut(fields, gone, i + 1), rest)
            else None
  {
    AllForeignSkip(fields, list, Partly(fields, Defaults(fields), m, i), SeenBut(fields, gone, i),
                   FieldCode(fields, m, gone, i) + rest);
    if i in gone {
      GoneReads(fields, m, gone, i);
      assert [] + rest == rest;
    } else {
      PresentReads(fields, m, i, SeenBut(fields, gone, i), rest);
    }
  }

  lemma PresentReads(fields: seq<Field>, m: Message, i: nat, seen: set<nat>, rest: Stream)
    requires WellFormed(fields) && IsMessage(fields, m) && i < |fields|
    requires EncodeField(fields[i], m[i]).Some? && |EncodeField(fields[i], m[i]).value| < TWO_32
    ensures DecodeLoop(fields, Partly(fields, Defaults(fields), m, i), seen, EncodeField(fields[i], m[i]).value + rest)
         == if SlotTerminated(fields[i], m[i])
            then DecodeLoop(fields, Partly(fields, Defaults(fields), m, i + 1), Mark(fields, seen, i), rest) else None
  {
    assert WellFormedField(fields[i]) && IsSlot(fields[i], m[i]);
    DefaultsAreMessage(fields);
    FieldHasCode(fields[i], m[i]);
    MergeIntoDefaultSlot(fields[i], m[i]);
    FieldReads(fields, Defaults(fields), m, i, seen, rest);
  }

  // ------------------------------------------------- which flags are raised

  lemma {:induction false} RequiredAscend(fields: seq<Field>, i: nat, j: nat)
    requires i <= j <= |fields|
    ensures RequiredBefore(fields, i) <= RequiredBefore(fields, j)
    ensures i < j && fields[i].rule.Required? ==> RequiredBefore(fields, i) < RequiredBefore(fields, j)
    decreases j
  {
    if i < j { RequiredAscend(fields, i, j - 1); }
  }

  lemma {:induction false} SeenButHas(fields: seq<Field>, gone: set<nat>, i: nat, j: nat)
    requires j < |fields| && i <= |fields| && fields[j].rule.Required?
    ensures RequiredBefore(fields, j) in SeenBut(fields, gone, i)
       <==> j < i && j !in gone && RequiredBefore(fields, j) < MAX_REQUIRED_FIELDS
    decreases i
  {
    if i > 0 {
      SeenButHas(fields, gone, i - 1, j);
      if i - 1 < j { RequiredAscend(fields, i - 1, j); }
      if j < i - 1 { RequiredAscend(fields, j, i - 1); }
    }
  }

  /** The field that a flag stands for. */
  lemma {:induction false} FlaggedField(fields: seq<Field>, n: nat, k: nat) returns (j: nat)
    requires n <= |fields| && k < RequiredBefore(fields, n)
    ensures j < n && fields[j].rule.Required? && RequiredBefore(fields, j) == k
    decreases n
  {
    if fields[n - 1].rule.Required? && RequiredBefore(fields, n - 1) == k {
      j := n - 1;
    } else {
      j := FlaggedField(fields, n - 1, k);
    }
  }

  /** The required fields left out are beyond the first 64. */
  ghost predicate Unchecked(fields: seq<Field>, gone: set<nat>)
    requires forall j :: j in gone ==> j < |fields|
  {
    forall j :: j in gone ==> RequiredBefore(fields, j) >= 64
  }

  lemma CompleteExactlyWhen(fields: seq<Field>, m: Message, gone: set<nat>)
    requires LeftOut(fields, m, gone)
    ensures Complete(fields, SeenBut(fields, gone, |fields|)) <==> Unchecked(fields, gone)
  {
    var seen := SeenBut(fields, gone, |fields|);
    if Unchecked(fields, gone) {
      forall k: nat | k < RequiredBefore(fields, |fields|) && k < MAX_REQUIRED_FIELDS ensures k in seen {
        var j := FlaggedField(fields, |fields|, k);
        SeenButHas(fields, gone, |fields|, j);
      }
    } else {
      var j :| j in gone && RequiredBefore(fields, j) < 64;
      SeenButHas(fields, gone, |fields|, j);
      RequiredAscend(fields, j, |fields|);
    }
  }

  // -------------------------------------------------------------------- result

  /** Fields of other descriptors, put between the fields of a message or at its ends, change nothing; and
      leaving out required fields makes decoding fail if and only if one of the first 64 is left out. */
  lemma DecodedAmongForeign(fields: seq<Field>, m: Message, foreign: seq<seq<Foreign>>, gone: set<nat>)
    requires WellFormed(fields) && IsMessage(fields, m) && LeftOut(fields, m, gone)
    requires EncodeFrom(fields, m, 0).Some? && |EncodeFrom(fields, m, 0).value| < TWO_32
    requires ForeignBetween(fields, foreign)
    ensures Decode(fields, EncodeAmong(fields, m, foreign, gone, 0))
         == if AllTerminated(fields, m) && Unchecked(fields, gone) then Some(Got(m, [])) else None
  {
    MessageHasCode(fields, m);
    PartlyEnds(fields, Defaults(fields), m);
    MergeIntoDefaults(fields, m);
    AmongReads(fields, m, foreign, gone, 0);
    CompleteExactlyWhen(fields, m, gone);
  }

  // ----------------------------------------------------------------- any bytes

  /** The value fits the C type, its limits and its memory, NUL included. */
  ghost predicate SoundValue(kind: Kind, v: Value) {
    IsValue(kind, v) && Terminated(kind, v) && KeepsLimits(kind, v)
  }

  ghost predicate SoundValues(kind: Kind, values: seq<Value>) {
    forall k :: 0 <= k < |values| ==> SoundValue(kind, values[k])
  }

  ghost predicate Sound(fields: seq<Field>, m: Message) {
    IsMessage(fields, m) && AllTerminated(fields, m) && MessageKeepsLimits(fields, m)
  }

  lemma SoundSlot(fields: seq<Field>, m: Message, i: nat)
    requires Sound(fields, m) && i < |fields|
    ensures RightCount(fields[i].rule, m[i]) && SoundValues(fields[i].kind, m[i])
    ensures fields[i].rule.Repeated? ==> |m[i]| <= fields[i].rule.max
  {
    assert IsSlot(fields[i], m[i]) && SlotTerminated(fields[i], m[i]) && SlotKeepsLimits(fields[i], m[i]);
  }

  lemma DefaultIsSound(kind: Kind)
    requires WellFormedKind(kind)
    ensures SoundValue(kind, Default(kind))
    decreases kind
  {
    DefaultIsValue(kind);
    DefaultTerminated(kind);
    if kind.Submessage? {
      var fields := kind.fields;
      forall i | 0 <= i < |fields| ensures SlotKeepsLimits(fields[i], DefaultSlot(fields[i])) {
        assert WellFormedField(fields[i]);
        DefaultIsSound(fields[i].kind);
      }
    }
  }

  lemma ScalarIsSound(kind: Kind, s: Stream)
    requires WellFormedKind(kind) && kind.Packable() && DecodeScalar(kind, s).Some?
    ensures SoundValue(kind, DecodeScalar(kind, s).value.value)
  {
  }

  lemma {:induction false} PackedIsSound(kind: Kind, max: nat, values: seq<Value>, s: Stream)
    requires WellFormedKind(kind) && kind.Packable() && SoundValues(kind, values) && |values| <= max
    requires DecodePacked(kind, max, values, s).Some?
    ensures SoundValues(kind, DecodePacked(kind, max, values, s).value)
    ensures |DecodePacked(kind, max, values, s).value| <= max
    decreases |s|
  {
    if s != [] {
      ScalarIsSound(kind, s);
      var got := DecodeScalar(kind, s).value;
      PackedIsSound(kind, max, values + [got.value], got.rest);
    }
  }

  lemma ValueIsSound(field: Field, current: Value, s: Stream)
    requires WellFormedField(field) && SoundValue(field.kind, current)
    requires DecodeValue(field, current, s).Some?
    ensures SoundValue(field.kind, DecodeValue(field, current, s).value.value)
    decreases field, 0
  {
    var kind := field.kind;
    if kind.Packable() {
      ScalarIsSound(kind, s);
    } else if kind.Submessage? {
      LoopIsSound(kind.fields, current.message, {}, ReadString(s).value.value);
    }
  }

  /** Replacing the slot of a field outside of unions. */
  lemma StoredIsSound(fields: seq<Field>, m: Message, i: nat, slot: seq<Value>)
    requires Sound(fields, m) && i < |fields| && !fields[i].rule.OneOf? && SoundValues(fields[i].kind, slot)
    requires RightCount(fields[i].rule, slot) && (fields[i].rule.Repeated? ==> |slot| <= fields[i].rule.max)
    ensures Sound(fields, m[i := slot])
  {
    forall j | 0 <= j < |fields|
      ensures IsSlot(fields[j], m[i := slot][j]) && SlotTerminated(fields[j], m[i := slot][j])
      ensures SlotKeepsLimits(fields[j], m[i := slot][j])
    {
      SoundSlot(fields, m, j);
    }
  }

  lemma ChosenIsSound(fields: seq<Field>, m: Message, i: nat, v: Value)
    requires Sound(fields, m) && i < |fields| && fields[i].rule.OneOf? && SoundValue(fields[i].kind, v)
    ensures Sound(fields, Choose(fields, m, i, v))
  {
    var r := Choose(fields, m, i, v);
    forall j | 0 <= j < |fields|
      ensures IsSlot(fields[j], r[j]) && SlotTerminated(fields[j], r[j]) && SlotKeepsLimits(fields[j], r[j])
    {
      SoundSlot(fields, m, j);
    }
  }

  lemma FieldIsSound(fields: seq<Field>, m: Message, i: nat, wire: nat, s: Stream)
    requires WellFormed(fields) && Sound(fields, m) && i < |fields| && DecodeField(fields, m, i, wire, s).Some?
    ensures Sound(fields, DecodeField(fields, m, i, wire, s).value.value)
    decreases fields, |s|, 0
  {
    var field := fields[i];
    assert WellFormedField(fields[i]);
    SoundSlot(fields, m, i);
    if field.rule.Repeated? && wire == WT_STRING && field.kind.Packable() {
      PackedIsSound(field.kind, field.rule.max, m[i], ReadString(s).value.value);
      StoredIsSound(fields, m, i, DecodePacked(field.kind, field.rule.max, m[i], ReadString(s).value.value).value);
    } else {
      var current := StartsFrom(field, m[i]);
      DefaultIsSound(field.kind);
      ValueIsSound(fields[i], current, s);
      var v := DecodeValue(fields[i], current, s).value.value;
      if field.rule.OneOf? {
        ChosenIsSound(fields, m, i, v);
      } else {
        StoredIsSound(fields, m, i, if field.rule.Repeated? then m[i] + [v] else [v]);
      }
    }
  }

  lemma {:induction false} LoopIsSound(fields: seq<Field>, m: Message, seen: set<nat>, s: Stream)
    requires WellFormed(fields) && Sound(fields, m) && DecodeLoop(fields, m, seen, s).Some?
    ensures Sound(fields, DecodeLoop(fields, m, seen, s).value.value)
    decreases fields, |s|, 1
  {
    if s != [] && DecodeTag(s).Key? {
      var key := DecodeTag(s);
      var i := IndexOf(fields, key.tag, 0);
      if i.Some? {
        FieldIsSound(fields, m, i.value, key.wire, key.rest);
        var got := DecodeField(fields, m, i.value, key.wire, key.rest).value;
        LoopIsSound(fields, got.value, Mark(fields, seen, i.value), got.rest);
      } else {
        LoopIsSound(fields, m, seen, SkipField(key.rest, key.wire).value);
      }
    }
  }

  /** Whatever bytes come in, a message that is decoded is one of its descriptor: numbers fit their types,
      arrays and bytes their maximum, strings their memory with a NUL, and a union has one member at most.
      So it can be encoded, and its code decodes to it again. */
  lemma DecodedIsSound(fields: seq<Field>, s: Stream)
    requires WellFormed(fields) && Decode(fields, s).Some?
    ensures var m := Decode(fields, s).value.value;
            && IsMessage(fields, m) && AllTerminated(fields, m) && MessageKeepsLimits(fields, m)
            && EncodeFrom(fields, m, 0).Some?
            && (|EncodeFrom(fields, m, 0).value| < TWO_32 ==>
                  Decode(fields, EncodeFrom(fields, m, 0).value) == Some(Got(m, [])))
  {
    DefaultIsSound(Submessage(fields));
    LoopIsSound(fields, Defaults(fields), {}, s);
    var m := Decode(fields, s).value.value;
    MessageHasCode(fields, m);
    if |EncodeFrom(fields, m, 0).value| < TWO_32 { DecodedExactlyWhen(fields, m); }
  }
}
