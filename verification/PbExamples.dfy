/** Messages in bytes, as the wire format has them. */
module PbExamples {
  import opened Wrappers
  import opened Bytes
  import opened Coding
  import opened PbEncoding
  import opened PbFields
  import opened PbWire

  /** The message is one of the descriptor, and this is its code. */
  ghost predicate HasCode(fields: seq<Field>, m: Message, code: seq<byte>) {
    IsMessage(fields, m) && EncodeFrom(fields, m, 0) == Some(code)
  }

  /** The code of a single required value: its key and the value. */
  lemma OneField(field: Field, v: Value, key: byte, code: seq<byte>, all: seq<byte>)
    requires field.rule.Required? && IsValue(field.kind, v) && EncodeValue(field.kind, v) == Some(code)
    requires key < 128 && field.tag * 8 + field.kind.WireType() == key as int && all == [key] + code
    ensures HasCode([field], [[v]], all)
  {
    assert IsSlot(field, [v]);
    assert EncodeTag(field.kind.WireType(), field.tag) == [key];
    assert EncodeField(field, [v]) == Some([key] + code);
    assert EncodeFrom([field], [[v]], 1) == Some([]);
    assert [key] + code + [] == all;
  }

  /** Field 1 with the number 150: wire type 0. */
  lemma NumberExample()
    ensures HasCode([Field(1, Required, UVarint(4))], [[Number(150)]], [0x08, 0x96, 0x01])
  {
    assert EncodeVarint(150) == [0x96] + EncodeVarint(1) == [0x96, 0x01];
    OneField(Field(1, Required, UVarint(4)), Number(150), 0x08, [0x96, 0x01], [0x08, 0x96, 0x01]);
  }

  /** Field 2 with the text "test": wire type 2. */
  lemma TextExample()
    ensures HasCode([Field(2, Required, String(8))], [[Data([0x74, 0x65, 0x73, 0x74])]],
                    [0x12, 0x04, 0x74, 0x65, 0x73, 0x74])
  {
    assert EncodeVarint(4) == [0x04];
    var text: seq<byte> := [0x74, 0x65, 0x73, 0x74];
    assert [0x04] + text == [0x04, 0x74, 0x65, 0x73, 0x74];
    OneField(Field(2, Required, String(8)), Data(text), 0x12, [0x04, 0x74, 0x65, 0x73, 0x74],
             [0x12, 0x04, 0x74, 0x65, 0x73, 0x74]);
  }

  /** Field 3 with a message in it: wire type 2 again. */
  lemma NestedExample()
    ensures HasCode([Field(3, Required, Submessage([Field(1, Required, UVarint(4))]))], [[Nested([[Number(150)]])]],
                    [0x1A, 0x03, 0x08, 0x96, 0x01])
  {
    NumberExample();
    var kind := Submessage([Field(1, Required, UVarint(4))]);
    assert EncodeVarint(3) == [0x03];
    var body: seq<byte> := [0x08, 0x96, 0x01];
    assert [0x03] + body == [0x03, 0x08, 0x96, 0x01];
    OneField(Field(3, Required, kind), Nested([[Number(150)]]), 0x1A, [0x03, 0x08, 0x96, 0x01],
             [0x1A, 0x03, 0x08, 0x96, 0x01]);
  }

  /** Field 4 with an array of numbers, packed: wire type 2. */
  lemma PackedExample()
    ensures HasCode([Field(4, Repeated(3), UVarint(4))], [[Number(3), Number(270)]], [0x22, 0x03, 0x03, 0x8E, 0x02])
  {
    var field, values := Field(4, Repeated(3), UVarint(4)), [Number(3), Number(270)];
    assert IsSlot(field, values);
    assert EncodeVarint(270) == [0x8E] + EncodeVarint(2) == [0x8E, 0x02];
    assert EncodePacked(field.kind, []) == Some([]);
    assert [Number(270)][1..] == [] && [0x8E, 0x02] + [] == [0x8E, 0x02 as byte];
    assert EncodePacked(field.kind, [Number(270)]) == Some([0x8E, 0x02]);
    assert values[1..] == [Number(270)];
    assert EncodeVarint(3) == [0x03] && EncodeTag(WT_STRING, 4) == [0x22];
    assert [0x03] + [0x8E, 0x02] == [0x03, 0x8E, 0x02 as byte];
    assert EncodePacked(field.kind, values) == Some([0x03, 0x8E, 0x02]);
    var body: seq<byte> := [0x03, 0x8E, 0x02];
    assert [0x22] + ([0x03] + body) == [0x22, 0x03, 0x03, 0x8E, 0x02];
    assert EncodeArray(field, values) == Some([0x22, 0x03, 0x03, 0x8E, 0x02]);
    assert EncodeFrom([field], [values], 1) == Some([]);
    assert [0x22, 0x03, 0x03, 0x8E, 0x02] + [] == [0x22, 0x03, 0x03, 0x8E, 0x02 as byte];
  }

  /** Field 5 with the number 1 in 32 bits: wire type 5. */
  lemma Fixed32Example()
    ensures HasCode([Field(5, Required, Fixed32)], [[Number(1)]], [0x2D, 1, 0, 0, 0])
  {
    OneField(Field(5, Required, Fixed32), Number(1), 0x2D, [1, 0, 0, 0], [0x2D, 1, 0, 0, 0]);
  }

  /** Field 6 with the number 1 in 64 bits: wire type 1. */
  lemma Fixed64Example()
    ensures HasCode([Field(6, Required, Fixed64)], [[Number(1)]], [0x31, 1, 0, 0, 0, 0, 0, 0, 0])
  {
    assert EncodeFixed32(1) == [1, 0, 0, 0] && EncodeFixed32(0) == [0, 0, 0, 0];
    assert EncodeFixed64(1) == [1, 0, 0, 0, 0, 0, 0, 0];
    OneField(Field(6, Required, Fixed64), Number(1), 0x31, [1, 0, 0, 0, 0, 0, 0, 0], [0x31, 1, 0, 0, 0, 0, 0, 0, 0]);
  }

  /** Field 7 with the number -2, extended to 64 bits. */
  lemma NegativeExample()
    ensures HasCode([Field(7, Required, Varint(4))], [[Number(-2)]],
                    [0x38, 0xFE, 0xFF, 0xFF, 0xFF, 0xFF, 0xFF, 0xFF, 0xFF, 0xFF, 0x01])
  {
    MinusTwo();
    OneField(Field(7, Required, Varint(4)), Number(-2), 0x38,
             [0xFE, 0xFF, 0xFF, 0xFF, 0xFF, 0xFF, 0xFF, 0xFF, 0xFF, 0x01],
             [0x38, 0xFE, 0xFF, 0xFF, 0xFF, 0xFF, 0xFF, 0xFF, 0xFF, 0xFF, 0x01]);
  }

  /** Field 8 with the number -2 in ZigZag. */
  lemma ZigZagExample()
    ensures HasCode([Field(8, Required, SVarint(4))], [[Number(-2)]], [0x40, 0x03])
  {
    assert EncodeVarint(3) == [0x03];
    OneField(Field(8, Required, SVarint(4)), Number(-2), 0x40, [0x03], [0x40, 0x03]);
  }

  lemma MinusTwo()
    ensures EncodeVarint(TWO_64 - 2) == [0xFE, 0xFF, 0xFF, 0xFF, 0xFF, 0xFF, 0xFF, 0xFF, 0xFF, 0x01]
  {
    assert EncodeVarint(1) == [0x01];
    assert EncodeVarint(0xFF) == [0xFF] + EncodeVarint(1);
    assert EncodeVarint(0x7FFF) == [0xFF] + EncodeVarint(0xFF);
    assert EncodeVarint(0x3F_FFFF) == [0xFF] + EncodeVarint(0x7FFF);
    assert EncodeVarint(0x1FFF_FFFF) == [0xFF] + EncodeVarint(0x3F_FFFF);
    assert EncodeVarint(0xF_FFFF_FFFF) == [0xFF] + EncodeVarint(0x1FFF_FFFF);
    assert EncodeVarint(0x7FF_FFFF_FFFF) == [0xFF] + EncodeVarint(0xF_FFFF_FFFF);
    assert EncodeVarint(0x3_FFFF_FFFF_FFFF) == [0xFF] + EncodeVarint(0x7FF_FFFF_FFFF);
    assert EncodeVarint(0x1FF_FFFF_FFFF_FFFF) == [0xFF] + EncodeVarint(0x3_FFFF_FFFF_FFFF);
    assert EncodeVarint(TWO_64 - 2) == [0xFE] + EncodeVarint(0x1FF_FFFF_FFFF_FFFF);
  }
}
