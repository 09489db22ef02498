/** What nanopb's encoder writes (nanopb/pb_encode.c), and the encoder itself. */
module PbEncoding {
  import opened Wrappers
  import opened Bytes
  import opened Coding
  import opened PbFields
  import opened PbWire

  type Code = Option<seq<byte>>

  function Joined(a: Code, b: Code): Code {
    if a == None || b == None then None else Some(a.value + b.value)
  }

  function EncodeValue(kind: Kind, v: Value): Code
    requires IsValue(kind, v)
    decreases kind, 0
  {
    match kind
    case Varint(_) => Some(EncodeVarint(v.n % TWO_64))
    case UVarint(_) => Some(EncodeVarint(v.n))
    case SVarint(_) => Some(EncodeVarint(ZigZag(v.n)))
    case Fixed32 => Some(EncodeFixed32(v.n))
    case Fixed64 => Some(EncodeFixed64(v.n))
    case Text(max) => if |v.bytes| > max then None else Some(EncodeString(v.bytes))
    case String(_) => Some(EncodeString(v.bytes))
    case FixedBytes(_) => Some(EncodeString(v.bytes))
    case Submessage(fields) => Delimited(EncodeFrom(fields, v.message, 0))
  }

  function Delimited(body: Code): Code {
    if body == None then None else Some(EncodeString(body.value))
  }

  function Tagged(field: Field, code: Code): Code {
    Joined(Some(EncodeTag(field.kind.WireType(), field.tag)), code)
  }

  /** Packed elements follow one another without keys. */
  function EncodePacked(kind: Kind, values: seq<Value>): Code
    requires AreValues(kind, values)
    decreases kind, |values|
  {
    if values == [] then Some([]) else Joined(EncodeValue(kind, values[0]), EncodePacked(kind, values[1..]))
  }

  function EncodeEach(field: Field, values: seq<Value>): Code
    requires AreValues(field.kind, values)
    decreases field, |values|
  {
    if values == [] then Some([])
    else Joined(Tagged(field, EncodeValue(field.kind, values[0])), EncodeEach(field, values[1..]))
  }

  function EncodeArray(field: Field, values: seq<Value>): Code
    requires field.rule.Repeated? && AreValues(field.kind, values)
    decreases field, |values| + 1
  {
    if values == [] then Some([])
    else if |values| > field.rule.max then None
    else if field.kind.Packable() then
      Joined(Some(EncodeTag(WT_STRING, field.tag)), Delimited(EncodePacked(field.kind, values)))
    else EncodeEach(field, values)
  }

  /** Is a field that is not repeated written? */
  predicate Present(field: Field, slot: seq<Value>) {
    slot != [] && (field.rule.Singular? ==> !IsDefault(field.kind, slot[0]))
  }

  function EncodeField(field: Field, slot: seq<Value>): Code
    requires IsSlot(field, slot)
    decreases field, |slot| + 2
  {
    if field.rule.Repeated? then EncodeArray(field, slot)
    else if Present(field, slot) then Tagged(field, EncodeValue(field.kind, slot[0]))
    else Some([])
  }

  /** The fields from `i` on. */
  function EncodeFrom(fields: seq<Field>, m: Message, i: nat): Code
    requires IsMessage(fields, m) && i <= |fields|
    decreases fields, |fields| - i
  {
    if i == |fields| then Some([]) else Joined(EncodeField(fields[i], m[i]), EncodeFrom(fields, m, i + 1))
  }

  // ------------------------------------------------------- what has a code

  /** The value keeps within the limits of its descriptor, at every depth. */
  ghost predicate KeepsLimits(kind: Kind, v: Value)
    decreases kind
  {
    match kind
    case Text(max) => v.Data? && |v.bytes| <= max
    case Submessage(fields) => v.Nested? && MessageKeepsLimits(fields, v.message)
    case _ => true
  }

  ghost predicate SlotKeepsLimits(field: Field, slot: seq<Value>)
    decreases field
  {
    && (field.rule.Repeated? ==> |slot| <= field.rule.max)
    && forall k :: 0 <= k < |slot| ==> KeepsLimits(field.kind, slot[k])
  }

  ghost predicate MessageKeepsLimits(fields: seq<Field>, m: Message)
    decreases fields
  {
    |m| == |fields| && forall i :: 0 <= i < |fields| ==> SlotKeepsLimits(fields[i], m[i])
  }

  lemma {:induction false} DefaultKeepsLimits(kind: Kind, v: Value)
    requires IsValue(kind, v) && IsDefault(kind, v)
    ensures KeepsLimits(kind, v)
    decreases kind
  {
    if kind.Submessage? {
      forall i | 0 <= i < |kind.fields| ensures SlotKeepsLimits(kind.fields[i], v.message[i]) {
        assert IsSlot(kind.fields[i], v.message[i]) && SlotIsDefault(kind.fields[i], v.message[i]);
        if kind.fields[i].rule.Singular? {
          DefaultKeepsLimits(kind.fields[i].kind, v.message[i][0]);
        }
      }
    }
  }

  lemma {:induction false} ValueHasCode(kind: Kind, v: Value)
    requires IsValue(kind, v)
    ensures EncodeValue(kind, v).Some? <==> KeepsLimits(kind, v)
    decreases kind, 0
  {
    if kind.Submessage? {
      MessageHasCode(kind.fields, v.message);
    }
  }

  lemma {:induction false} PackedHasCode(kind: Kind, values: seq<Value>)
    requires AreValues(kind, values)
    ensures EncodePacked(kind, values).Some? <==> forall k :: 0 <= k < |values| ==> KeepsLimits(kind, values[k])
    decreases kind, |values| + 1
  {
    if values != [] {
      ValueHasCode(kind, values[0]);
      PackedHasCode(kind, values[1..]);
      FirstKeepsLimits(kind, values);
    }
  }

  lemma {:induction false} EachHasCode(field: Field, values: seq<Value>)
    requires AreValues(field.kind, values)
    ensures EncodeEach(field, values).Some? <==> forall k :: 0 <= k < |values| ==> KeepsLimits(field.kind, values[k])
    decreases field, |values|
  {
    if values != [] {
      ValueHasCode(field.kind, values[0]);
      EachHasCode(field, values[1..]);
      FirstKeepsLimits(field.kind, values);
    }
  }

  lemma FirstKeepsLimits(kind: Kind, values: seq<Value>)
    requires values != []
    ensures (forall k :: 0 <= k < |values| ==> KeepsLimits(kind, values[k]))
       <==> KeepsLimits(kind, values[0]) && forall k :: 0 <= k < |values[1..]| ==> KeepsLimits(kind, values[1..][k])
  {
    forall k | 0 < k < |values| ensures values[k] == values[1..][k - 1] {}
  }

  lemma {:induction false} FieldHasCode(field: Field, slot: seq<Value>)
    requires IsSlot(field, slot)
    ensures EncodeField(field, slot).Some? <==> SlotKeepsLimits(field, slot)
    decreases field, |slot| + 1
  {
    if field.rule.Repeated? {
      PackedHasCode(field.kind, slot);
      EachHasCode(field, slot);
    } else if slot != [] {
      ValueHasCode(field.kind, slot[0]);
      if !Present(field, slot) { DefaultKeepsLimits(field.kind, slot[0]); }
    }
  }

  lemma {:induction false} FieldsHaveCode(fields: seq<Field>, m: Message, i: nat)
    requires IsMessage(fields, m) && i <= |fields|
    ensures EncodeFrom(fields, m, i).Some? <==> forall j :: i <= j < |fields| ==> SlotKeepsLimits(fields[j], m[j])
    decreases fields, |fields| - i
  {
    if i < |fields| {
      assert IsSlot(fields[i], m[i]);
      FieldHasCode(fields[i], m[i]);
      FieldsHaveCode(fields, m, i + 1);
    }
  }

  /** A message has a code if and only if, at every depth, no array is longer than its maximum and no bytes
      field holds more than its own. */
  lemma MessageHasCode(fields: seq<Field>, m: Message)
    requires IsMessage(fields, m)
    ensures EncodeFrom(fields, m, 0).Some? <==> MessageKeepsLimits(fields, m)
    decreases fields, |fields| + 1
  {
    FieldsHaveCode(fields, m, 0);
  }
}
