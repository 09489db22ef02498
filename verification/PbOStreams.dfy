/** nanopb's encoder as it runs (nanopb/pb_encode.c): streams that write, and streams that only
    count. */
module PbOStreams {
  import opened Wrappers
  import opened Bytes
  import opened Coding
  import opened PbEncoding
  import opened PbFields
  import opened PbWire

  /** From `w0` bytes counted and `s0` written, a call has come to `w1` and `s1`: it succeeds exactly
      when there is a code and room for it, and then the stream grows by that code. */
  ghost predicate Takes(writing: bool, max: nat, w0: nat, s0: seq<byte>, code: Code, ok: bool, w1: nat, s1: seq<byte>) {
    && (ok <==> code.Some? && (writing ==> w0 + |code.value| <= max))
    && (ok ==> w1 == w0 + |code.value| && s1 == if writing then s0 + code.value else s0)
  }

  lemma TakesBoth(writing: bool, max: nat, w0: nat, s0: seq<byte>, a: Code, w1: nat, s1: seq<byte>, b: Code, ok: bool,
                  w2: nat, s2: seq<byte>)
    requires Takes(writing, max, w0, s0, a, true, w1, s1) && Takes(writing, max, w1, s1, b, ok, w2, s2)
    ensures Takes(writing, max, w0, s0, Joined(a, b), ok, w2, s2)
  {
  }

  lemma FailsBoth(writing: bool, max: nat, w0: nat, s0: seq<byte>, a: Code, w1: nat, s1: seq<byte>, b: Code)
    requires Takes(writing, max, w0, s0, a, false, w1, s1)
    ensures Takes(writing, max, w0, s0, Joined(a, b), false, w1, s1)
  {
  }

  lemma JoinedMoves(done: seq<byte>, code: Code, rest: Code)
    ensures Joined(Some(done), Joined(code, rest)) == Joined(Joined(Some(done), code), rest)
  {
    if code.Some? && rest.Some? {
      assert done + (code.value + rest.value) == done + code.value + rest.value;
    }
  }

  lemma JoinedFirst(code: Code)
    ensures Joined(Some([]), code) == code
  {
    assert code.Some? ==> [] + code.value == code.value;
  }

  /** One more code of several. */
  lemma TakesNext(writing: bool, max: nat, w0: nat, s0: seq<byte>, done: seq<byte>, w1: nat, s1: seq<byte>,
                  code: Code, rest: Code, ok: bool, w2: nat, s2: seq<byte>)
    requires Takes(writing, max, w0, s0, Some(done), true, w1, s1) && Takes(writing, max, w1, s1, code, ok, w2, s2)
    ensures ok ==> Takes(writing, max, w0, s0, Some(done + code.value), true, w2, s2)
    ensures !ok ==> Takes(writing, max, w0, s0, Joined(Joined(Some(done), code), rest), false, w2, s2)
  {
    if ok {
      assert s0 + done + code.value == s0 + (done + code.value);
    }
  }

  lemma {:induction false} PackedSize(kind: Kind, values: seq<Value>)
    requires kind.Packable() && AreValues(kind, values)
    ensures EncodePacked(kind, values).Some?
    ensures kind.Fixed32? ==> |EncodePacked(kind, values).value| == 4 * |values|
    ensures kind.Fixed64? ==> |EncodePacked(kind, values).value| == 8 * |values|
    decreases |values|
  {
    if values != [] {
      PackedSize(kind, values[1..]);
    }
  }

  class OStream {
    /** False for a stream without a callback, which only counts. */
    const writing: bool
    const maxSize: nat
    var state: seq<byte>
    var bytesWritten: nat

    constructor (writing: bool, maxSize: nat, state: seq<byte>)
      ensures this.writing == writing && this.maxSize == maxSize && this.state == state && bytesWritten == 0
    {
      this.writing, this.maxSize, this.state, bytesWritten := writing, maxSize, state, 0;
    }

    ghost predicate Has(w0: nat, s0: seq<byte>, code: Code, ok: bool)
      reads this
    {
      Takes(writing, maxSize, w0, s0, code, ok, bytesWritten, state)
    }

    ghost predicate Room()
      reads this
    {
      writing ==> bytesWritten <= maxSize
    }

    /** A stream that counts looks only at `count`. */
    method Write(buf: seq<byte>, count: nat) returns (ok: bool)
      requires Room() && (writing ==> |buf| == count)
      modifies this
      ensures Room() && (ok <==> (writing ==> old(bytesWritten) + count <= maxSize))
      ensures ok ==>
                bytesWritten == old(bytesWritten) + count && state == if writing then old(state) + buf else old(state)
    {
      if writing {
        if bytesWritten + count > maxSize {
          return false;
        }
        state := state + buf;
      }
      bytesWritten := bytesWritten + count;
      return true;
    }

    method WriteVarint(value: nat) returns (ok: bool)
      requires Room()
      modifies this
      ensures Room() && Has(old(bytesWritten), old(state), Some(EncodeVarint(value)), ok)
    {
      if value <= 0x7F {
        ok := Write([value as byte], 1);
        return;
      }
      var v: nat := value;
      var buffer: seq<byte> := [];
      ghost var last: nat := 0;
      ghost var done: seq<byte> := [];
      while v > 0
        invariant v > 0 ==> buffer + EncodeVarint(v) == EncodeVarint(value)
        invariant v == 0 ==>
                    && last < 128 && buffer == done + [(last + 128) as byte]
                    && done + [last as byte] == EncodeVarint(value)
      {
        done, last := buffer, v % 128;
        buffer := buffer + [(v % 128 + 128) as byte];
        if v >= 128 {
          assert done + EncodeVarint(v) == buffer + EncodeVarint(v / 128);
        }
        v := v / 128;
      }
      var i := |buffer|;
      buffer := buffer[i - 1 := buffer[i - 1] - 128];
      assert buffer == EncodeVarint(value);
      ok := Write(buffer, i);
    }

    method WriteTag(wire: nat, tag: nat) returns (ok: bool)
      requires Room()
      modifies this
      ensures Room() && Has(old(bytesWritten), old(state), Some(EncodeTag(wire, tag)), ok)
    {
      ok := WriteVarint(tag * 8 + wire);
    }

    method WriteString(data: seq<byte>) returns (ok: bool)
      requires Room()
      modifies this
      ensures Room() && Has(old(bytesWritten), old(state), Some(EncodeString(data)), ok)
    {
      ok := WriteVarint(|data|);
      if ok {
        ok := Write(data, |data|);
      }
    }

    /** The function the descriptor's type selects. */
    method WriteValue(kind: Kind, v: Value) returns (ok: bool)
      requires Room() && IsValue(kind, v)
      modifies this
      ensures Room() && Has(old(bytesWritten), old(state), EncodeValue(kind, v), ok)
      decreases kind, 0
    {
      match kind
      case Varint(_) => ok := WriteVarint(v.n % TWO_64);
      case UVarint(_) => ok := WriteVarint(v.n);
      case SVarint(_) => ok := WriteVarint(ZigZag(v.n));
      case Fixed32 => ok := Write(EncodeFixed32(v.n), 4);
      case Fixed64 => ok := Write(EncodeFixed64(v.n), 8);
      case Text(max) =>
        if |v.bytes| > max {
          return false;
        }
        ok := WriteString(v.bytes);
      case String(_) => ok := WriteString(v.bytes);
      case FixedBytes(_) => ok := WriteString(v.bytes);
      case Submessage(fields) => ok := WriteSubmessage(fields, v.message);
    }

    method WriteTagged(field: Field, v: Value) returns (ok: bool)
      requires Room() && IsValue(field.kind, v)
      modifies this
      ensures Room() && Has(old(bytesWritten), old(state), Tagged(field, EncodeValue(field.kind, v)), ok)
      decreases field, 0
    {
      ghost var w0, s0 := bytesWritten, state;
      ghost var key, code := Some(EncodeTag(field.kind.WireType(), field.tag)), EncodeValue(field.kind, v);
      ok := WriteTag(field.kind.WireType(), field.tag);
      if !ok {
        FailsBoth(writing, maxSize, w0, s0, key, bytesWritten, state, code);
        return;
      }
      ghost var w1, s1 := bytesWritten, state;
      ok := WriteValue(field.kind, v);
      TakesBoth(writing, maxSize, w0, s0, key, w1, s1, code, ok, bytesWritten, state);
    }

    /** The size is found first by a stream that only counts; the message is then written through a
        stream with exactly that much room. */
    method WriteSubmessage(fields: seq<Field>, m: Message) returns (ok: bool)
      requires Room() && IsMessage(fields, m)
      modifies this
      ensures Room() && Has(old(bytesWritten), old(state), Delimited(EncodeFrom(fields, m, 0)), ok)
      decreases fields, |fields| + 1
    {
      ghost var code := EncodeFrom(fields, m, 0);
      var counting := new OStream(false, 0, []);
      ok := counting.Encode(fields, m);
      if !ok {
        return;
      }
      var size := counting.bytesWritten;
      ghost var w0, s0 := bytesWritten, state;
      ok := WriteVarint(size);
      if !ok {
        return;
      }
      if !writing {
        ok := Write([], size);
        return;
      }
      if bytesWritten + size > maxSize {
        return false;
      }
      var substream := new OStream(true, size, state);
      ok := substream.Encode(fields, m);
      bytesWritten := bytesWritten + substream.bytesWritten;
      state := substream.state;
      if substream.bytesWritten != size {
        return false;
      }
      assert state == s0 + EncodeVarint(size) + code.value;
    }

    method WriteArray(field: Field, values: seq<Value>) returns (ok: bool)
      requires Room() && field.rule.Repeated? && AreValues(field.kind, values)
      modifies this
      ensures Room() && Has(old(bytesWritten), old(state), EncodeArray(field, values), ok)
      decreases field, 2
    {
      if values == [] {
        return true;
      }
      if |values| > field.rule.max {
        return false;
      }
      if field.kind.Packable() {
        ok := WritePacked(field, values);
      } else {
        ok := WriteEach(field, values);
      }
    }

    method WritePacked(field: Field, values: seq<Value>) returns (ok: bool)
      requires Room() && field.kind.Packable() && AreValues(field.kind, values)
      modifies this
      ensures Room()
      ensures Has(old(bytesWritten), old(state),
                  Joined(Some(EncodeTag(WT_STRING, field.tag)), Delimited(EncodePacked(field.kind, values))), ok)
      decreases field, 1
    {
      var kind := field.kind;
      ok := WriteTag(WT_STRING, field.tag);
      if !ok {
        return;
      }
      var size;
      if kind.Fixed32? {
        size := 4 * |values|;
      } else if kind.Fixed64? {
        size := 8 * |values|;
      } else {
        var counting := new OStream(false, 0, []);
        ok := counting.WriteElements(kind, values);
        if !ok {
          return;
        }
        size := counting.bytesWritten;
      }
      PackedSize(kind, values);
      ok := WriteVarint(size);
      if !ok {
        return;
      }
      if !writing {
        ok := Write([], size);
        return;
      }
      ok := WriteElements(kind, values);
    }

    method WriteElements(kind: Kind, values: seq<Value>) returns (ok: bool)
      requires Room() && kind.Packable() && AreValues(kind, values)
      modifies this
      ensures Room() && Has(old(bytesWritten), old(state), EncodePacked(kind, values), ok)
      decreases kind, 1
    {
      ghost var w0, s0, done := bytesWritten, state, [];
      var i := 0;
      JoinedFirst(EncodePacked(kind, values));
      assert values[0..] == values;
      while i < |values|
        invariant i <= |values| && Room()
        invariant Has(w0, s0, Some(done), true)
        invariant EncodePacked(kind, values) == Joined(Some(done), EncodePacked(kind, values[i..]))
      {
        ghost var w1, s1 := bytesWritten, state;
        ghost var code, rest := EncodeValue(kind, values[i]), EncodePacked(kind, values[i + 1..]);
        assert values[i..][1..] == values[i + 1..];
        assert EncodePacked(kind, values[i..]) == Joined(code, rest);
        JoinedMoves(done, code, rest);
        ok := WriteValue(kind, values[i]);
        TakesNext(writing, maxSize, w0, s0, done, w1, s1, code, rest, ok, bytesWritten, state);
        if !ok {
          return;
        }
        done := done + code.value;
        i := i + 1;
      }
      ok := true;
    }

    method WriteEach(field: Field, values: seq<Value>) returns (ok: bool)
      requires Room() && AreValues(field.kind, values)
      modifies this
      ensures Room() && Has(old(bytesWritten), old(state), EncodeEach(field, values), ok)
      decreases field, 1
    {
      ghost var w0, s0, done := bytesWritten, state, [];
      var i := 0;
      JoinedFirst(EncodeEach(field, values));
      assert values[0..] == values;
      while i < |values|
        invariant i <= |values| && Room()
        invariant Has(w0, s0, Some(done), true)
        invariant EncodeEach(field, values) == Joined(Some(done), EncodeEach(field, values[i..]))
      {
        ghost var w1, s1 := bytesWritten, state;
        ghost var code, rest := Tagged(field, EncodeValue(field.kind, values[i])), EncodeEach(field, values[i + 1..]);
        assert values[i..][1..] == values[i + 1..];
        assert EncodeEach(field, values[i..]) == Joined(code, rest);
        JoinedMoves(done, code, rest);
        ok := WriteTagged(field, values[i]);
        TakesNext(writing, maxSize, w0, s0, done, w1, s1, code, rest, ok, bytesWritten, state);
        if !ok {
          return;
        }
        done := done + code.value;
        i := i + 1;
      }
      ok := true;
    }

    /** One field, present or not. */
    method WriteField(field: Field, slot: seq<Value>) returns (ok: bool)
      requires Room() && IsSlot(field, slot)
      modifies this
      ensures Room() && Has(old(bytesWritten), old(state), EncodeField(field, slot), ok)
      decreases field, 3
    {
      match field.rule
      case Required =>
        ok := WriteTagged(field, slot[0]);
      case Singular =>
        if IsDefault(field.kind, slot[0]) {
          return true;
        }
        ok := WriteTagged(field, slot[0]);
      case Repeated(_) =>
        ok := WriteArray(field, slot);
      case _ =>
        if slot == [] {
          return true;
        }
        ok := WriteTagged(field, slot[0]);
    }

    /** pb_encode: every byte the message's code has is counted, and written if the stream writes. */
    method Encode(fields: seq<Field>, m: Message) returns (ok: bool)
      requires Room() && IsMessage(fields, m)
      modifies this
      ensures Room() && Has(old(bytesWritten), old(state), EncodeFrom(fields, m, 0), ok)
      decreases fields, 0
    {
      var iter := new FieldIter(fields);
      if fields == [] {
        return true;
      }
      ghost var w0, s0, done, i := bytesWritten, state, [], 0;
      JoinedFirst(EncodeFrom(fields, m, 0));
      var more := true;
      while more
        invariant iter.Valid() && iter.fields == fields && Room()
        invariant if more then i == iter.pos < |fields| else i == |fields|
        invariant Has(w0, s0, Some(done), true)
        invariant EncodeFrom(fields, m, 0) == Joined(Some(done), EncodeFrom(fields, m, i))
        decreases |fields| - i
      {
        ghost var w1, s1 := bytesWritten, state;
        ghost var code, rest := EncodeField(fields[i], m[i]), EncodeFrom(fields, m, i + 1);
        JoinedMoves(done, code, rest);
        ok := WriteField(fields[iter.pos], m[iter.pos]);
        TakesNext(writing, maxSize, w0, s0, done, w1, s1, code, rest, ok, bytesWritten, state);
        if !ok {
          return;
        }
        done, i := done + code.value, i + 1;
        more := iter.Next();
      }
      ok := true;
    }
  }

  /** pb_get_encoded_size. */
  method GetEncodedSize(fields: seq<Field>, m: Message) returns (ok: bool, size: nat)
    requires IsMessage(fields, m)
    ensures ok <==> MessageKeepsLimits(fields, m)
    ensures ok ==> EncodeFrom(fields, m, 0).Some? && size == |EncodeFrom(fields, m, 0).value|
  {
    MessageHasCode(fields, m);
    var stream := new OStream(false, 0, []);
    ok := stream.Encode(fields, m);
    size := stream.bytesWritten;
  }

  /** pb_encode into a buffer: it fails exactly when the message exceeds a limit of its descriptor or the
      buffer is too small. */
  method EncodeToBuffer(fields: seq<Field>, m: Message, bufsize: nat) returns (ok: bool, bytes: seq<byte>)
    requires IsMessage(fields, m)
    ensures EncodeFrom(fields, m, 0).Some? <==> MessageKeepsLimits(fields, m)
    ensures ok <==> MessageKeepsLimits(fields, m) && |EncodeFrom(fields, m, 0).value| <= bufsize
    ensures ok ==> bytes == EncodeFrom(fields, m, 0).value
  {
    MessageHasCode(fields, m);
    var stream := new OStream(true, bufsize, []);
    ok := stream.Encode(fields, m);
    bytes := stream.state;
  }
}
