/** What nanopb encodes it decodes.  Decoding merges the message encoded into the one that the memory
    holds; into the defaults, that gives the message back. */
module PbRoundTrip {
  import opened Wrappers
  import opened Bytes
  import opened PbDecoding
  import opened PbEncoding
  import opened PbFields
  import opened PbMerging
  import opened PbWire

  /** The outcome of reading a value back. */
  ghost function Back<T>(good: bool, value: T, rest: Stream): Option<Got<T>> {
    if good then Some(Got(value, rest)) else None
  }

  lemma ScalarReads(kind: Kind, v: Value, rest: Stream)
    requires kind.Packable() && IsValue(kind, v)
    ensures EncodeValue(kind, v).Some? && |EncodeValue(kind, v).value| > 0
    ensures DecodeScalar(kind, EncodeValue(kind, v).value + rest) == Some(Got(v, rest))
  {
    match kind
    case Varint(size) =>
      Varint64Reads(v.n % TWO_64, rest);
      SignedOfUnsigned(v.n);
    case UVarint(size) =>
      Varint64Reads(v.n, rest);
    case SVarint(size) =>
      ZigZagUndone(v.n);
      Varint64Reads(ZigZag(v.n), rest);
    case Fixed32 =>
      Fixed32RoundTrip(v.n, rest);
      assert (EncodeFixed32(v.n) + rest)[4..] == rest;
    case Fixed64 =>
      Fixed64RoundTrip(v.n, rest);
      assert (EncodeFixed64(v.n) + rest)[8..] == rest;
    case _ =>
  }

  lemma PackedStep(kind: Kind, max: nat, front: seq<Value>, v: Value, rest: Stream)
    requires kind.Packable() && IsValue(kind, v)
    ensures EncodeValue(kind, v).Some?
    ensures DecodePacked(kind, max, front, EncodeValue(kind, v).value + rest)
         == if |front| < max then DecodePacked(kind, max, front + [v], rest) else None
  {
    ScalarReads(kind, v, rest);
  }

  lemma OneMore<T>(front: seq<T>, values: seq<T>)
    requires values != []
    ensures front + [values[0]] + values[1..] == front + values
  {
  }

  /** A packed array reads back behind the elements that are there, as long as there is room. */
  lemma {:induction false} PackedReads(kind: Kind, max: nat, front: seq<Value>, values: seq<Value>)
    requires kind.Packable() && AreValues(kind, values)
    ensures EncodePacked(kind, values).Some?
    ensures DecodePacked(kind, max, front, EncodePacked(kind, values).value)
         == if values == [] || |front| + |values| <= max then Some(front + values) else None
    decreases |values|
  {
    if values == [] {
      assert front + values == front;
    } else {
      PackedReads(kind, max, front + [values[0]], values[1..]);
      PackedStep(kind, max, front, values[0], EncodePacked(kind, values[1..]).value);
      OneMore(front, values);
    }
  }

  /** A value reads back merged into what the memory holds. */
  lemma ValueReads(field: Field, v: Value, current: Value, rest: Stream)
    requires WellFormedField(field) && IsValue(field.kind, v) && IsValue(field.kind, current)
    requires EncodeValue(field.kind, v).Some? && |EncodeValue(field.kind, v).value| < TWO_32
    ensures DecodeValue(field, current, EncodeValue(field.kind, v).value + rest)
         == Back(CanMergeValue(field.kind, current, v), MergeValue(field.kind, current, v), rest)
    decreases field, 0
  {
    var kind := field.kind;
    if kind.Packable() {
      ScalarReads(kind, v, rest);
    } else if kind.Submessage? {
      StringReads(EncodeFrom(kind.fields, v.message, 0).value, rest);
      MessageReads(kind.fields, current.message, v.message);
    } else {
      StringReads(v.bytes, rest);
    }
  }

  // ------------------------------------------------------------ one key at a time

  /** Where field `i` leaves the decoder. */
  ghost function After(fields: seq<Field>, seen: set<nat>, i: nat, got: Option<Got<Message>>): Option<Got<Message>>
    requires i < |fields| && (got.Some? ==> |got.value.value| == |fields|)
  {
    if got == None then None else DecodeLoop(fields, got.value.value, Mark(fields, seen, i), got.value.rest)
  }

  lemma KeyStep(fields: seq<Field>, m: Message, seen: set<nat>, i: nat, wire: nat, body: Stream)
    requires WellFormed(fields) && |m| == |fields| && i < |fields| && wire < 8
    ensures DecodeLoop(fields, m, seen, EncodeTag(wire, fields[i].tag) + body)
         == After(fields, seen, i, DecodeField(fields, m, i, wire, body))
  {
    assert WellFormedField(fields[i]);
    TagReads(wire, fields[i].tag, body);
    assert IndexOf(fields, fields[i].tag, 0) == Some(i);
  }

  /** The flags of the fields from `i` on are raised. */
  ghost function MarkFrom(fields: seq<Field>, seen: set<nat>, i: nat): set<nat>
    requires i <= |fields|
    decreases |fields| - i
  {
    if i == |fields| then seen else MarkFrom(fields, Mark(fields, seen, i), i + 1)
  }

  ghost predicate SeenTo(fields: seq<Field>, seen: set<nat>, i: nat)
    requires i <= |fields|
  {
    forall k: nat :: k < RequiredBefore(fields, i) && k < MAX_REQUIRED_FIELDS ==> k in seen
  }

  lemma {:induction false} AllAreMarked(fields: seq<Field>, seen: set<nat>, i: nat)
    requires i <= |fields| && SeenTo(fields, seen, i)
    ensures Complete(fields, MarkFrom(fields, seen, i))
    decreases |fields| - i
  {
    if i < |fields| {
      AllAreMarked(fields, Mark(fields, seen, i), i + 1);
    }
  }

  ghost predicate CanMergeFrom(fields: seq<Field>, x: Message, y: Message, i: nat)
    requires |x| == |y| == |fields|
  {
    forall j :: i <= j < |fields| ==> CanMergeSlot(fields[j], x[j], y[j])
  }

  /** A whole message reads back merged into what the memory holds. */
  lemma {:induction false} MessageReads(fields: seq<Field>, x: Message, y: Message)
    requires WellFormed(fields) && IsMessage(fields, x) && IsMessage(fields, y)
    requires EncodeFrom(fields, y, 0).Some? && |EncodeFrom(fields, y, 0).value| < TWO_32
    ensures DecodeLoop(fields, x, {}, EncodeFrom(fields, y, 0).value)
         == Back(CanMerge(fields, x, y), Merge(fields, x, y), [])
    decreases fields, |fields| + 2
  {
    var code := EncodeFrom(fields, y, 0).value;
    PartlyEnds(fields, x, y);
    FieldsRead(fields, x, y, 0, {}, []);
    AllAreMarked(fields, {}, 0);
    assert code + [] == code;
  }

  lemma {:induction false} FieldsRead(fields: seq<Field>, x: Message, y: Message, i: nat, seen: set<nat>, rest: Stream)
    requires WellFormed(fields) && IsMessage(fields, x) && IsMessage(fields, y) && i <= |fields|
    requires EncodeFrom(fields, y, i).Some? && |EncodeFrom(fields, y, i).value| < TWO_32
    ensures DecodeLoop(fields, Partly(fields, x, y, i), seen, EncodeFrom(fields, y, i).value + rest)
         == if CanMergeFrom(fields, x, y, i)
            then DecodeLoop(fields, Merge(fields, x, y), MarkFrom(fields, seen, i), rest) else None
    decreases fields, |fields| - i + 1
  {
    if i == |fields| {
      PartlyEnds(fields, x, y);
      assert [] + rest == rest;
    } else {
      var code, more := EncodeField(fields[i], y[i]).value, EncodeFrom(fields, y, i + 1).value;
      assert code + more + rest == code + (more + rest);
      FieldReads(fields, x, y, i, seen, more + rest);
      FieldsRead(fields, x, y, i + 1, Mark(fields, seen, i), rest);
    }
  }

  /** Reading field `i`'s code takes the decoder from before the field to behind it. */
  ghost predicate ReadsField(fields: seq<Field>, x: Message, y: Message, i: nat, seen: set<nat>, code: seq<byte>,
                             rest: Stream)
    requires |x| == |y| == |fields| && i < |fields|
  {
    DecodeLoop(fields, Partly(fields, x, y, i), seen, code + rest)
    == if CanMergeSlot(fields[i], x[i], y[i])
       then DecodeLoop(fields, Partly(fields, x, y, i + 1), Mark(fields, seen, i), rest) else None
  }

  lemma FieldReads(fields: seq<Field>, x: Message, y: Message, i: nat, seen: set<nat>, rest: Stream)
    requires WellFormed(fields) && IsMessage(fields, x) && IsMessage(fields, y) && i < |fields|
    requires EncodeField(fields[i], y[i]).Some? && |EncodeField(fields[i], y[i]).value| < TWO_32
    ensures ReadsField(fields, x, y, i, seen, EncodeField(fields[i], y[i]).value, rest)
    decreases fields, 1
  {
    var field, slot := fields[i], y[i];
    assert WellFormedField(field) && IsSlot(field, x[i]) && IsSlot(field, slot);
    if slot == [] || (!field.rule.Repeated? && !Present(field, slot)) {
      AbsentReads(fields, x, y, i, seen, rest);
    } else if !field.rule.Repeated? {
      SingleReads(fields, x, y, i, seen, rest);
    } else if field.kind.Packable() {
      PackedFieldReads(fields, x, y, i, seen, rest);
    } else {
      EachFieldReads(fields, x, y, i, seen, rest);
    }
  }

  /** A field that is not written is left as the decoder has it. */
  lemma AbsentReads(fields: seq<Field>, x: Message, y: Message, i: nat, seen: set<nat>, rest: Stream)
    requires |x| == |y| == |fields| && i < |fields| && IsSlot(fields[i], y[i])
    requires y[i] == [] || (!fields[i].rule.Repeated? && !Present(fields[i], y[i]))
    ensures ReadsField(fields, x, y, i, seen, [], rest)
  {
    PartlyAbsent(fields, x, y, i);
    assert [] + rest == rest;
  }

  lemma SingleReads(fields: seq<Field>, x: Message, y: Message, i: nat, seen: set<nat>, rest: Stream)
    requires WellFormed(fields) && IsMessage(fields, x) && IsMessage(fields, y) && i < |fields|
    requires !fields[i].rule.Repeated? && Present(fields[i], y[i])
    requires EncodeField(fields[i], y[i]).Some? && |EncodeField(fields[i], y[i]).value| < TWO_32
    ensures ReadsField(fields, x, y, i, seen, EncodeField(fields[i], y[i]).value, rest)
    decreases fields, 0, 0
  {
    var field, v := fields[i], y[i][0];
    assert WellFormedField(fields[i]) && IsSlot(field, x[i]) && IsSlot(field, y[i]);
    var key, code := EncodeTag(field.kind.WireType(), field.tag), EncodeValue(field.kind, v).value;
    var current := StartsFrom(field, Partly(fields, x, y, i)[i]);
    SingleStarts(fields, x, y, i);
    assert key + code + rest == key + (code + rest);
    KeyStep(fields, Partly(fields, x, y, i), seen, i, field.kind.WireType(), code + rest);
    ValueReads(fields[i], v, current, rest);
    ValueStored(fields, Partly(fields, x, y, i), i, code + rest,
                Back(CanMergeValue(field.kind, current, v), MergeValue(field.kind, current, v), rest));
    StoredSingle(fields, x, y, i);
  }

  /** A member of a union starts from its default, every other field from what the memory holds. */
  lemma SingleStarts(fields: seq<Field>, x: Message, y: Message, i: nat)
    requires WellFormed(fields) && IsMessage(fields, x) && |y| == |fields| && i < |fields| && !fields[i].rule.Repeated?
    ensures var current := StartsFrom(fields[i], Partly(fields, x, y, i)[i]);
            && IsValue(fields[i].kind, current)
            && current == if fields[i].rule.OneOf? then Default(fields[i].kind) else Current(fields[i].kind, x[i])
  {
    assert WellFormedField(fields[i]) && IsSlot(fields[i], x[i]);
    DefaultIsValue(fields[i].kind);
    CurrentIsValue(fields[i], x[i]);
  }

  lemma StoredSingle(fields: seq<Field>, x: Message, y: Message, i: nat)
    requires WellFormed(fields) && IsMessage(fields, x) && IsMessage(fields, y) && i < |fields|
    requires !fields[i].rule.Repeated? && Present(fields[i], y[i]) && EncodeField(fields[i], y[i]).Some?
    ensures var kind := fields[i].kind;
            var current := StartsFrom(fields[i], Partly(fields, x, y, i)[i]);
            && (CanMergeSlot(fields[i], x[i], y[i]) <==> CanMergeValue(kind, current, y[i][0]))
            && StoreValue(fields, Partly(fields, x, y, i), i, MergeValue(kind, current, y[i][0]))
            == Partly(fields, x, y, i + 1)
  {
    SingleStarts(fields, x, y, i);
    assert WellFormedField(fields[i]) && IsSlot(fields[i], y[i]);
    assert y[i] == [y[i][0]];
    if fields[i].rule.OneOf? {
      ValueHasCode(fields[i].kind, y[i][0]);
      MergeIntoDefault(fields[i].kind, y[i][0]);
      PartlyChosen(fields, x, y, i);
    } else {
      PartlyOne(fields, x, y, i);
    }
  }

  /** What a value that was read does to the message. */
  lemma ValueStored(fields: seq<Field>, part: Message, i: nat, s: Stream, got: Option<Got<Value>>)
    requires |part| == |fields| && i < |fields| && !fields[i].rule.Repeated?
    requires DecodeValue(fields[i], StartsFrom(fields[i], part[i]), s) == got
    ensures DecodeField(fields, part, i, fields[i].kind.WireType(), s)
         == if got == None then None else Some(Got(StoreValue(fields, part, i, got.value.value), got.value.rest))
  {
  }

  // --------------------------------------------------------------------- arrays

  /** Storing a whole packed array. */
  lemma PackedStored(fields: seq<Field>, part: Message, i: nat, slot: seq<Value>, data: seq<byte>, rest: Stream)
    requires |part| == |fields| && i < |fields| && IsSlot(fields[i], slot) && slot != []
    requires fields[i].rule.Repeated? && fields[i].kind.Packable()
    requires EncodePacked(fields[i].kind, slot) == Some(data) && |data| < TWO_32
    ensures DecodeField(fields, part, i, WT_STRING, EncodeString(data) + rest)
         == Back(|part[i]| + |slot| <= fields[i].rule.max, part[i := part[i] + slot], rest)
  {
    StringReads(data, rest);
    PackedReads(fields[i].kind, fields[i].rule.max, part[i], slot);
  }

  lemma PackedFieldReads(fields: seq<Field>, x: Message, y: Message, i: nat, seen: set<nat>, rest: Stream)
    requires WellFormed(fields) && |x| == |y| == |fields| && i < |fields| && IsSlot(fields[i], y[i])
    requires fields[i].rule.Repeated? && fields[i].kind.Packable() && y[i] != []
    requires EncodeField(fields[i], y[i]).Some? && |EncodeField(fields[i], y[i]).value| < TWO_32
    ensures ReadsField(fields, x, y, i, seen, EncodeField(fields[i], y[i]).value, rest)
  {
    var field := fields[i];
    var key, data := EncodeTag(WT_STRING, field.tag), EncodePacked(field.kind, y[i]).value;
    assert key + EncodeString(data) + rest == key + (EncodeString(data) + rest);
    KeyStep(fields, Partly(fields, x, y, i), seen, i, WT_STRING, EncodeString(data) + rest);
    PartlyOne(fields, x, y, i);
    PackedStored(fields, Partly(fields, x, y, i), i, y[i], data, rest);
    assert forall k :: 0 <= k < |y[i]| ==> Terminated(field.kind, y[i][k]);
  }

  lemma ElementStep(fields: seq<Field>, part: Message, i: nat, s: Stream, seen: set<nat>, got: Option<Got<Value>>)
    requires WellFormed(fields) && |part| == |fields| && i < |fields| && fields[i].rule.Repeated?
          && !fields[i].kind.Packable()
    requires DecodeValue(fields[i], Default(fields[i].kind), s) == got
    ensures DecodeLoop(fields, part, seen, EncodeTag(fields[i].kind.WireType(), fields[i].tag) + s)
         == if got == None || |part[i]| >= fields[i].rule.max then None
            else DecodeLoop(fields, part[i := part[i] + [got.value.value]], seen, got.value.rest)
  {
    KeyStep(fields, part, seen, i, fields[i].kind.WireType(), s);
  }

  /** One element under its own key. */
  lemma ElementReads(fields: seq<Field>, part: Message, i: nat, v: Value, seen: set<nat>, rest: Stream)
    requires WellFormed(fields) && |part| == |fields| && i < |fields| && IsValue(fields[i].kind, v)
    requires fields[i].rule.Repeated? && !fields[i].kind.Packable()
    requires EncodeValue(fields[i].kind, v).Some? && |EncodeValue(fields[i].kind, v).value| < TWO_32
    ensures DecodeLoop(fields, part, seen, Tagged(fields[i], EncodeValue(fields[i].kind, v)).value + rest)
         == if Terminated(fields[i].kind, v) && |part[i]| < fields[i].rule.max
            then DecodeLoop(fields, part[i := part[i] + [v]], seen, rest) else None
    decreases fields, 0, 0
  {
    var field := fields[i];
    assert WellFormedField(fields[i]);
    var key, code := EncodeTag(field.kind.WireType(), field.tag), EncodeValue(field.kind, v).value;
    assert key + code + rest == key + (code + rest);
    DefaultIsValue(field.kind);
    ValueHasCode(field.kind, v);
    MergeIntoDefault(field.kind, v);
    ValueReads(fields[i], v, Default(field.kind), rest);
    ElementStep(fields, part, i, code + rest, seen, Back(Terminated(field.kind, v), v, rest));
  }

  lemma {:induction false} EachReads(fields: seq<Field>, part: Message, i: nat, values: seq<Value>, seen: set<nat>,
                                     rest: Stream)
    requires WellFormed(fields) && |part| == |fields| && i < |fields| && AreValues(fields[i].kind, values)
    requires fields[i].rule.Repeated? && !fields[i].kind.Packable()
    requires EncodeEach(fields[i], values).Some? && |EncodeEach(fields[i], values).value| < TWO_32
    ensures DecodeLoop(fields, part, seen, EncodeEach(fields[i], values).value + rest)
         == if TerminatedAll(fields[i].kind, values) && (values == [] || |part[i]| + |values| <= fields[i].rule.max)
            then DecodeLoop(fields, part[i := part[i] + values], seen, rest) else None
    decreases fields, 0, |values| + 1
  {
    if values == [] {
      assert part[i] + values == part[i] && part[i := part[i]] == part;
      assert [] + rest == rest;
    } else {
      var v, others := values[0], values[1..];
      var code, more := Tagged(fields[i], EncodeValue(fields[i].kind, v)).value, EncodeEach(fields[i], others).value;
      assert EncodeEach(fields[i], values).value + rest == code + (more + rest);
      ElementReads(fields, part, i, v, seen, more + rest);
      var next := part[i := part[i] + [v]];
      OneMore(part[i], values);
      assert next[i := next[i] + others] == part[i := part[i] + values];
      EachReads(fields, next, i, others, seen, rest);
      FirstTerminated(fields[i].kind, values);
    }
  }

  lemma FirstTerminated(kind: Kind, values: seq<Value>)
    requires values != []
    ensures TerminatedAll(kind, values) <==> Terminated(kind, values[0]) && TerminatedAll(kind, values[1..])
  {
    forall j | 0 <= j < |values| && Terminated(kind, values[0]) && TerminatedAll(kind, values[1..])
      ensures Terminated(kind, values[j])
    {
      assert j > 0 ==> values[j] == values[1..][j - 1];
    }
  }

  lemma EachFieldReads(fields: seq<Field>, x: Message, y: Message, i: nat, seen: set<nat>, rest: Stream)
    requires WellFormed(fields) && IsMessage(fields, y) && |x| == |fields| && i < |fields|
    requires fields[i].rule.Repeated? && !fields[i].kind.Packable() && y[i] != []
    requires EncodeField(fields[i], y[i]).Some? && |EncodeField(fields[i], y[i]).value| < TWO_32
    ensures ReadsField(fields, x, y, i, seen, EncodeField(fields[i], y[i]).value, rest)
    decreases fields, 0
  {
    assert IsSlot(fields[i], y[i]);
    PartlyOne(fields, x, y, i);
    EachReads(fields, Partly(fields, x, y, i), i, y[i], seen, rest);
  }

  // ------------------------------------------------------------------ results

  /** pb_decode gives back what pb_encode wrote exactly when all strings have their NUL; otherwise it
      refuses. */
  lemma DecodedExactlyWhen(fields: seq<Field>, m: Message)
    requires WellFormed(fields) && IsMessage(fields, m)
    requires EncodeFrom(fields, m, 0).Some? && |EncodeFrom(fields, m, 0).value| < TWO_32
    ensures Decode(fields, EncodeFrom(fields, m, 0).value)
         == if AllTerminated(fields, m) then Some(Got(m, [])) else None
  {
    MessageHasCode(fields, m);
    DefaultsAreMessage(fields);
    MergeIntoDefaults(fields, m);
    MessageReads(fields, Defaults(fields), m);
  }

  /** Two messages never share an encoding, as long as their strings are terminated. */
  lemma EncodingIsInjective(fields: seq<Field>, a: Message, b: Message)
    requires WellFormed(fields) && IsMessage(fields, a) && IsMessage(fields, b)
    requires AllTerminated(fields, a) && AllTerminated(fields, b)
    requires EncodeFrom(fields, a, 0).Some? && |EncodeFrom(fields, a, 0).value| < TWO_32
    requires EncodeFrom(fields, b, 0) == EncodeFrom(fields, a, 0)
    ensures a == b
  {
    DecodedExactlyWhen(fields, a);
    DecodedExactlyWhen(fields, b);
  }

  /** Concatenated encodings merge: what stands in both is put together or overwritten, and it fails exactly
      when a string is not terminated or an array gets too long. */
  lemma ConcatenationMerges(fields: seq<Field>, a: Message, b: Message)
    requires WellFormed(fields) && IsMessage(fields, a) && IsMessage(fields, b)
    requires EncodeFrom(fields, a, 0).Some? && |EncodeFrom(fields, a, 0).value| < TWO_32
    requires EncodeFrom(fields, b, 0).Some? && |EncodeFrom(fields, b, 0).value| < TWO_32
    ensures Decode(fields, EncodeFrom(fields, a, 0).value + EncodeFrom(fields, b, 0).value)
         == Back(AllTerminated(fields, a) && CanMerge(fields, a, b), Merge(fields, a, b), [])
  {
    var first, second := EncodeFrom(fields, a, 0).value, EncodeFrom(fields, b, 0).value;
    MessageHasCode(fields, a);
    DefaultsAreMessage(fields);
    MergeIntoDefaults(fields, a);
    PartlyEnds(fields, Defaults(fields), a);
    FieldsRead(fields, Defaults(fields), a, 0, {}, second);
    PartlyEnds(fields, a, b);
    FieldsRead(fields, a, b, 0, MarkFrom(fields, {}, 0), []);
    assert second + [] == second;
    AllAreMarked(fields, {}, 0);
    MarkedTwice(fields);
  }

  lemma {:induction false} MarksGrow(fields: seq<Field>, seen: set<nat>, i: nat)
    requires i <= |fields|
    ensures seen <= MarkFrom(fields, seen, i)
    decreases |fields| - i
  {
    if i < |fields| {
      MarksGrow(fields, Mark(fields, seen, i), i + 1);
    }
  }

  lemma MarkedTwice(fields: seq<Field>)
    ensures Complete(fields, MarkFrom(fields, MarkFrom(fields, {}, 0), 0))
  {
    AllAreMarked(fields, {}, 0);
    MarksGrow(fields, MarkFrom(fields, {}, 0), 0);
  }
}
