/** What nanopb's decoder makes of a stream (nanopb/pb_decode.c). */
module PbDecoding {
  import opened Wrappers
  import opened Bytes
  import opened PbFields
  import opened PbWire

  /** A cast to the field's size must not change the number. */
  function Clamped(size: nat, n: int, rest: Stream): (r: Option<Got<Value>>)
    ensures r.Some? ==> r.value.rest == rest
  {
    if Range(size) == 0 || Signed(size, n) != n then None else Some(Got(Number(n), rest))
  }

  /** Numbers below 64 bits are first cut to 32, which also accepts a negative number sent in 5 bytes. */
  function DecodeSigned(size: nat, got: Got<nat>): (r: Option<Got<Value>>)
    ensures r.Some? ==> r.value.rest == got.rest
  {
    Clamped(size, if size == 8 then Signed(8, got.value) else Signed(4, got.value), got.rest)
  }

  function DecodeScalar(kind: Kind, s: Stream): (r: Option<Got<Value>>)
    requires kind.Packable()
    ensures r.Some? ==> |r.value.rest| < |s|
  {
    if kind.Fixed32? then
      if |s| < 4 then None else Some(Got(Number(DecodeFixed32(s)), s[4..]))
    else if kind.Fixed64? then
      if |s| < 8 then None else Some(Got(Number(DecodeFixed64(s)), s[8..]))
    else
      var got := DecodeVarint64(s);
      if got == None then None
      else if kind.Varint? then DecodeSigned(kind.size, got.value)
      else if kind.SVarint? then Clamped(kind.size, UnZigZag(got.value.value), got.value.rest)
      else if FitsUnsigned(kind.size, got.value.value) then Some(Got(Number(got.value.value), got.value.rest))
      else None
  }

  /** A string ends at its first NUL. */
  function UpToNul(s: seq<byte>): (r: seq<byte>)
    ensures 0 !in r && r <= s && (|r| < |s| ==> s[|r|] == 0)
    ensures 0 !in s ==> r == s
  {
    if s == [] || s[0] == 0 then [] else [s[0]] + UpToNul(s[1..])
  }

  /** Bytes, strings and fixed-length bytes, each against the memory it has. */
  function StoreBytes(kind: Kind, got: Got<seq<byte>>): (r: Option<Got<Value>>)
    ensures r.Some? ==> r.value.rest == got.rest
  {
    var n := |got.value|;
    match kind
    case Text(max) => if n > max then None else Some(Got(Data(got.value), got.rest))
    case String(size) => if n + 1 > size then None else Some(Got(Data(UpToNul(got.value)), got.rest))
    case FixedBytes(size) =>
      if n == 0 then Some(Got(Data(Zeros(size)), got.rest))
      else if n != size then None
      else Some(Got(Data(got.value), got.rest))
    case _ => None
  }

  /** The memory a submessage is decoded into. */
  function Target(fields: seq<Field>, current: Value): (m: Message)
    ensures |m| == |fields|
  {
    if current.Nested? && |current.message| == |fields| then current.message else Defaults(fields)
  }

  /** `current` is what the field's memory holds; a submessage is merged into it. */
  function DecodeValue(field: Field, current: Value, s: Stream): (r: Option<Got<Value>>)
    ensures r.Some? ==> |r.value.rest| < |s|
    decreases field, 0
  {
    var kind := field.kind;
    if kind.Packable() then DecodeScalar(kind, s) else
      match ReadString(s)
      case None => None
      case Some(got) =>
        if kind.Submessage? then
          match DecodeLoop(kind.fields, Target(kind.fields, current), {}, got.value)
          case None => None
          case Some(inner) => Some(Got(Nested(inner.value), got.rest))
        else StoreBytes(kind, got)
  }

  function DecodePacked(kind: Kind, max: nat, values: seq<Value>, s: Stream): (r: Option<seq<Value>>)
    requires kind.Packable()
    decreases |s|
  {
    if s == [] then Some(values)
    else if |values| >= max then None
    else
      match DecodeScalar(kind, s)
      case None => None
      case Some(got) => DecodePacked(kind, max, values + [got.value], got.rest)
  }

  /** Field `i` of a union becomes the only one in it. */
  function Choose(fields: seq<Field>, m: Message, i: nat, v: Value): (r: Message)
    requires |m| == |fields| && i < |fields|
    ensures |r| == |m|
  {
    seq(|m|, j requires 0 <= j < |m| => if j == i then [v] else if fields[j].rule == fields[i].rule then [] else m[j])
  }

  function Current(kind: Kind, slot: seq<Value>): Value {
    if slot == [] then Default(kind) else slot[0]
  }

  function StoreValue(fields: seq<Field>, m: Message, i: nat, v: Value): (r: Message)
    requires |m| == |fields| && i < |fields|
    ensures |r| == |m|
  {
    match fields[i].rule
    case Repeated(_) => m[i := m[i] + [v]]
    case OneOf(_) => Choose(fields, m, i, v)
    case _ => m[i := [v]]
  }

  /** Array elements and the members of a union start from their defaults. */
  function StartsFrom(field: Field, slot: seq<Value>): Value {
    if field.rule.Repeated? || field.rule.OneOf? then Default(field.kind) else Current(field.kind, slot)
  }

  function DecodeField(fields: seq<Field>, m: Message, i: nat, wire: nat, s: Stream): (r: Option<Got<Message>>)
    requires |m| == |fields| && i < |fields|
    ensures r.Some? ==> |r.value.rest| < |s| && |r.value.value| == |m|
    decreases fields, |s|, 0
  {
    var field := fields[i];
    if field.rule.Repeated? && wire == WT_STRING && field.kind.Packable() then
      match ReadString(s)
      case None => None
      case Some(got) =>
        match DecodePacked(field.kind, field.rule.max, m[i], got.value)
        case None => None
        case Some(values) => Some(Got(m[i := values], got.rest))
    else if field.rule.Repeated? && |m[i]| >= field.rule.max then None
    else
      match DecodeValue(fields[i], StartsFrom(field, m[i]), s)
      case None => None
      case Some(got) => Some(Got(StoreValue(fields, m, i, got.value), got.rest))
  }

  function IndexOf(fields: seq<Field>, tag: nat, from: nat): (r: Option<nat>)
    requires from <= |fields|
    ensures r.Some? ==> r.value < |fields| && fields[r.value].tag == tag
    ensures r == None ==> forall i :: from <= i < |fields| ==> fields[i].tag != tag
    decreases |fields| - from
  {
    if from == |fields| then None else if fields[from].tag == tag then Some(from) else IndexOf(fields, tag, from + 1)
  }

  const MAX_REQUIRED_FIELDS: nat := 64

  function Mark(fields: seq<Field>, seen: set<nat>, i: nat): set<nat>
    requires i < |fields|
  {
    if fields[i].rule.Required? && RequiredBefore(fields, i) < MAX_REQUIRED_FIELDS
    then seen + {RequiredBefore(fields, i)} else seen
  }

  /** The first 64 required fields must have been seen. */
  predicate Complete(fields: seq<Field>, seen: set<nat>) {
    forall k: nat :: k < RequiredBefore(fields, |fields|) && k < MAX_REQUIRED_FIELDS ==> k in seen
  }

  /** pb_decode_noinit. In an empty array the terminator itself answers to tag 0, and refuses. */
  function DecodeLoop(fields: seq<Field>, m: Message, seen: set<nat>, s: Stream): (r: Option<Got<Message>>)
    requires |m| == |fields|
    ensures r.Some? ==> |r.value.value| == |m|
    decreases fields, |s|, 1
  {
    match if s == [] then Eof(s) else DecodeTag(s)
    case Bad => None
    case Eof(rest) => if Complete(fields, seen) then Some(Got(m, rest)) else None
    case Key(tag, wire, rest) =>
      if fields == [] && tag == 0 then None else
        match IndexOf(fields, tag, 0)
        case Some(i) =>
          (match DecodeField(fields, m, i, wire, rest)
           case None => None
           case Some(got) => DecodeLoop(fields, got.value, Mark(fields, seen, i), got.rest))
        case None =>
          match SkipField(rest, wire)
          case None => None
          case Some(after) => DecodeLoop(fields, m, seen, after)
  }

  /** pb_decode. */
  function Decode(fields: seq<Field>, s: Stream): Option<Got<Message>> {
    DecodeLoop(fields, Defaults(fields), {}, s)
  }
}
