/** Message descriptors of nanopb, the messages they describe, and the iterator over descriptors
    (nanopb/pb.h, nanopb/pb_common.c). */
module PbFields {
  import opened Bytes
  import opened PbWire

  /** `Optional` fields have a has_ flag, `Singular` ones (proto3) have not; the fields of a union
      share their memory and the tag of the field that is in it. */
  datatype Rule = Required | Optional | Singular | Repeated(max: nat) | OneOf(union: nat)

  /** Sizes are in bytes; that of a string includes its final NUL. */
  datatype Kind =
    | Varint(size: nat) | UVarint(size: nat) | SVarint(size: nat) | Fixed32 | Fixed64
    | Text(max: nat) | String(size: nat) | FixedBytes(size: nat)
    | Submessage(fields: seq<Field>)
  {
    predicate Packable() {
      Varint? || UVarint? || SVarint? || Fixed32? || Fixed64?
    }

    /** The type pb_encode_tag_for_field announces. */
    function WireType(): (w: nat)
      ensures w < 8
    {
      if Varint? || UVarint? || SVarint? then WT_VARINT
      else if Fixed32? then WT_32BIT
      else if Fixed64? then WT_64BIT
      else WT_STRING
    }
  }

  datatype Field = Field(tag: nat, rule: Rule, kind: Kind)

  /** A string is kept without its NUL. */
  datatype Value = Number(n: int) | Data(bytes: seq<byte>) | Nested(message: Message)

  /** Every field has its present values: at most one unless it is repeated. */
  type Message = seq<seq<Value>>

  // ----------------------------------------------------------------- defaults

  /** Memory as pb_message_set_to_defaults leaves it. */
  function Default(kind: Kind): Value
    decreases kind
  {
    if kind.Packable() then Number(0)
    else if kind.Submessage? then Nested(Defaults(kind.fields))
    else if kind.FixedBytes? then Data(Zeros(kind.size))
    else Data([])
  }

  function Defaults(fields: seq<Field>): (m: Message)
    ensures |m| == |fields|
    decreases fields
  {
    seq(|fields|, i requires 0 <= i < |fields| => DefaultSlot(fields[i]))
  }

  function DefaultSlot(field: Field): seq<Value>
    decreases field
  {
    if field.rule.Required? || field.rule.Singular? then [Default(field.kind)] else []
  }

  // ----------------------------------------------------- what is well formed

  ghost predicate WellFormedKind(kind: Kind)
    decreases kind
  {
    match kind
    case Varint(size) => Range(size) > 0
    case UVarint(size) => Range(size) > 0
    case SVarint(size) => Range(size) > 0
    case String(size) => size > 0
    case Submessage(fields) => WellFormed(fields)
    case _ => true
  }

  ghost predicate DistinctTags(fields: seq<Field>) {
    forall i, j :: 0 <= i < j < |fields| ==> fields[i].tag != fields[j].tag
  }

  /** A tag is not zero and leaves room for the wire type in 32 bits. */
  ghost predicate WellFormedField(field: Field)
    decreases field
  {
    0 < field.tag < 0x2000_0000 && WellFormedKind(field.kind)
  }

  ghost predicate WellFormed(fields: seq<Field>)
    decreases fields
  {
    DistinctTags(fields) && forall i :: 0 <= i < |fields| ==> WellFormedField(fields[i])
  }

  /** The value is one the C type can hold; a string that fills its memory has no NUL. */
  ghost predicate IsValue(kind: Kind, v: Value)
    decreases kind
  {
    match kind
    case Varint(size) => v.Number? && FitsSigned(size, v.n)
    case UVarint(size) => v.Number? && FitsUnsigned(size, v.n)
    case SVarint(size) => v.Number? && FitsSigned(size, v.n)
    case Fixed32 => v.Number? && FitsUnsigned(4, v.n)
    case Fixed64 => v.Number? && FitsUnsigned(8, v.n)
    case Text(max) => v.Data?
    case String(size) => v.Data? && |v.bytes| <= size && 0 !in v.bytes
    case FixedBytes(size) => v.Data? && |v.bytes| == size
    case Submessage(fields) => v.Nested? && IsMessage(fields, v.message)
  }

  predicate RightCount(rule: Rule, slot: seq<Value>) {
    match rule
    case Required => |slot| == 1
    case Singular => |slot| == 1
    case Repeated(_) => true
    case _ => |slot| <= 1
  }

  ghost predicate IsMessage(fields: seq<Field>, m: Message)
    decreases fields
  {
    && |m| == |fields|
    && (forall i :: 0 <= i < |fields| ==> IsSlot(fields[i], m[i]))
    && OnePerUnion(fields, m)
  }

  ghost predicate IsSlot(field: Field, slot: seq<Value>)
    decreases field
  {
    RightCount(field.rule, slot) && forall k :: 0 <= k < |slot| ==> IsValue(field.kind, slot[k])
  }

  ghost predicate AreValues(kind: Kind, values: seq<Value>) {
    forall k :: 0 <= k < |values| ==> IsValue(kind, values[k])
  }

  ghost predicate OnePerUnion(fields: seq<Field>, m: Message)
    requires |m| == |fields|
  {
    forall i, j :: 0 <= i < j < |fields| && fields[i].rule.OneOf? && fields[i].rule == fields[j].rule ==>
      m[i] == [] || m[j] == []
  }

  /** Every string is terminated within its memory. */
  ghost predicate Terminated(kind: Kind, v: Value)
    decreases kind
  {
    match kind
    case String(size) => v.Data? && |v.bytes| < size
    case Submessage(fields) => v.Nested? && AllTerminated(fields, v.message)
    case _ => true
  }

  ghost predicate AllTerminated(fields: seq<Field>, m: Message)
    decreases fields
  {
    |m| == |fields| && forall i :: 0 <= i < |fields| ==> SlotTerminated(fields[i], m[i])
  }

  ghost predicate SlotTerminated(field: Field, slot: seq<Value>)
    decreases field
  {
    forall k :: 0 <= k < |slot| ==> Terminated(field.kind, slot[k])
  }

  /** pb_check_proto3_default_value. */
  predicate IsDefault(kind: Kind, v: Value)
    decreases kind
  {
    match kind
    case Text(_) => v == Data([])
    case String(_) => v == Data([])
    case FixedBytes(size) => size == 0
    case Submessage(fields) => v.Nested? && AllDefault(fields, v.message)
    case _ => v == Number(0)
  }

  predicate AllDefault(fields: seq<Field>, m: Message)
    decreases fields
  {
    |m| == |fields| && forall i :: 0 <= i < |fields| ==> SlotIsDefault(fields[i], m[i])
  }

  predicate SlotIsDefault(field: Field, slot: seq<Value>)
    decreases field
  {
    match field.rule
    case Required => false
    case Singular => slot != [] && IsDefault(field.kind, slot[0])
    case _ => slot == []
  }

  /** The default of such a kind is left out: it is a message only if it has no required field, and bytes
      of a fixed length never are. */
  predicate OmitsDefault(kind: Kind)
    decreases kind
  {
    match kind
    case FixedBytes(size) => size == 0
    case Submessage(fields) => forall i :: 0 <= i < |fields| ==> OmitsField(fields[i])
    case _ => true
  }

  predicate OmitsField(field: Field)
    decreases field
  {
    !field.rule.Required? && (field.rule.Singular? ==> OmitsDefault(field.kind))
  }

  /** What the encoder leaves out is what the decoder starts from, wherever that can be left out. */
  lemma {:induction false} DefaultValueIs(kind: Kind, v: Value)
    requires IsValue(kind, v)
    ensures IsDefault(kind, v) <==> v == Default(kind) && OmitsDefault(kind)
    decreases kind
  {
    if kind.Submessage? {
      var fields := kind.fields;
      forall i | 0 <= i < |fields|
        ensures SlotIsDefault(fields[i], v.message[i])
           <==> v.message[i] == DefaultSlot(fields[i]) && OmitsField(fields[i])
      {
        assert IsSlot(fields[i], v.message[i]);
        if fields[i].rule.Singular? {
          DefaultValueIs(fields[i].kind, v.message[i][0]);
          assert v.message[i] == [v.message[i][0]];
        }
      }
      if AllDefault(fields, v.message) || v == Default(kind) {
        assert AllDefault(fields, v.message) ==> v.message == Defaults(fields);
      }
    } else if kind.FixedBytes? && kind.size == 0 {
      assert v.bytes == [];
    }
  }

  // ---------------------------------------------------------- the iterator

  /** How many required fields come before field `i`. */
  function RequiredBefore(fields: seq<Field>, i: nat): nat
    requires i <= |fields|
  {
    if i == 0 then 0 else RequiredBefore(fields, i - 1) + if fields[i - 1].rule.Required? then 1 else 0
  }

  /** An empty array holds only its terminator, which has tag 0. */
  predicate IsTag(fields: seq<Field>, i: nat, tag: nat) {
    if i < |fields| then fields[i].tag == tag else fields == [] && tag == 0
  }

  class FieldIter {
    const fields: seq<Field>
    var pos: nat
    var requiredFieldIndex: nat

    ghost predicate Valid()
      reads this
    {
      && (pos < |fields| || (fields == [] && pos == 0))
      && requiredFieldIndex == RequiredBefore(fields, pos)
    }

    constructor (fields: seq<Field>)
      ensures Valid() && this.fields == fields && pos == 0
    {
      this.fields := fields;
      pos, requiredFieldIndex := 0, 0;
    }

    /** False when it wraps to the first field. */
    method Next() returns (more: bool)
      requires Valid()
      modifies this
      ensures Valid()
      ensures more <==> old(pos) + 1 < |fields|
      ensures pos == if more then old(pos) + 1 else 0
    {
      if fields == [] {
        return false;
      }
      var prev := fields[pos];
      if pos + 1 == |fields| {
        pos, requiredFieldIndex := 0, 0;
        return false;
      }
      pos := pos + 1;
      if prev.rule.Required? {
        requiredFieldIndex := requiredFieldIndex + 1;
      }
      return true;
    }

    /** From wherever it stands, the search goes once around. */
    method Find(tag: nat) returns (found: bool)
      requires Valid()
      modifies this
      ensures Valid()
      ensures found ==> IsTag(fields, pos, tag)
      ensures !found ==> forall i: nat :: i <= |fields| ==> !IsTag(fields, i, tag)
    {
      ghost var start := pos;
      ghost var n := |fields|;
      var from := pos;
      ghost var steps := 0;
      while true
        invariant Valid() && from == start && steps <= n
        invariant pos == if start + steps < n then start + steps else start + steps - n
        invariant steps == n ==> n == 0 || pos == start
        invariant steps < n || n == 0
        invariant forall i: nat :: (start <= i < start + steps || i + n < start + steps) && i < n ==>
                    fields[i].tag != tag
        decreases n - steps
      {
        if (if pos < |fields| then fields[pos].tag else 0) == tag {
          return true;
        }
        var _ := Next();
        if pos == from {
          return false;
        }
        steps := steps + 1;
      }
    }
  }
}
