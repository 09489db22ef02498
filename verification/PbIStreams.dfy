/** nanopb's decoder as it runs (nanopb/pb_decode.c): streams over a buffer, and substreams that stop
    at the end of a field. */
module PbIStreams {
  import opened Wrappers
  import opened Bytes
  import opened Coding
  import opened PbDecoding
  import opened PbFields
  import opened PbWire

  /** A varint whose byte `n` is its last. */
  lemma VarintStops(s: Stream, n: nat, count: nat)
    requires n < |s| && n < count && AllContinue(s, n) && s[n] < 128
    ensures DecodeVarint(s, 0, |s|, count) == Some(Decoded(Low7(s, n + 1), n + 1))
  {
    VarintSplits(s, n, count);
    assert DecodeVarint(s, n, |s|, count - n) == Some(Decoded(s[n] as nat, n + 1));
  }

  /** A varint of at least `count` bytes, or cut before its last. */
  lemma VarintEnds(s: Stream, n: nat, count: nat)
    requires n <= |s| && n <= count && AllContinue(s, n) && (n == |s| || n == count)
    ensures DecodeVarint(s, 0, |s|, count) == None
  {
    VarintSplits(s, n, count);
  }

  function Modulus(wide: bool): (m: nat)
    ensures m > 0
  {
    if wide then TWO_64 else TWO_32
  }

  /** One more byte, whose bits do not overlap those below `weight`. */
  function Take(result: nat, weight: nat, b: byte, wide: bool): nat {
    Plus(result, weight, Bits7(b)) % Modulus(wide)
  }

  lemma TakeIs(s: Stream, n: nat, result: nat, weight: nat, wide: bool)
    requires n < |s| && weight == Power128(n) && result == Low7(s, n) % Modulus(wide)
    ensures Take(result, weight, s[n], wide) == Low7(s, n + 1) % Modulus(wide)
  {
    ModPlus(Low7(s, n), result, Times(weight, Bits7(s[n])), wide);
  }

  lemma ModPlus(a: nat, b: nat, c: nat, wide: bool)
    requires b == a % Modulus(wide)
    ensures (b + c) % Modulus(wide) == (a + c) % Modulus(wide)
  {
    if wide {
      assert a == b + TWO_64 * (a / TWO_64);
    } else {
      assert a == b + TWO_32 * (a / TWO_32);
    }
  }

  lemma Low7Single(s: Stream)
    requires s != []
    ensures Low7(s, 1) == Bits7(s[0])
  {
    TimesIs(Power128(0), Bits7(s[0]));
    assert Low7(s, 0) == 0;
  }

  lemma Powers()
    ensures Power128(1) == 0x80 && Power128(2) == 0x4000 && Power128(3) == 0x20_0000 && Power128(4) == 0x1000_0000
  {
    assert Power128(0) == 1;
    assert Power128(1) == 128 * Power128(0);
    assert Power128(2) == 128 * Power128(1);
    assert Power128(3) == 128 * Power128(2);
    assert Power128(4) == 128 * Power128(3);
  }

  lemma Low7Below(s: Stream, n: nat)
    requires n <= 4 && n <= |s|
    ensures Low7(s, n) < 0x1000_0000
  {
    Powers();
    Low7Bound(s, n);
  }

  lemma FifthByte(low: nat, x: nat)
    requires low < 0x1000_0000 && x < 128
    ensures Plus(low, 0x1000_0000, x) < TWO_32 <==> x < 16
  {
    TimesIs(0x1000_0000, x);
  }

  lemma Low7At5(s: Stream)
    requires |s| >= 5 && s[4] < 128
    ensures Low7(s, 5) < TWO_32 <==> s[4] < 16
  {
    Low7Below(s, 4);
    Powers();
    FifthByte(Low7(s, 4), s[4] as nat);
  }

  lemma Low7At(s: Stream, n: nat)
    requires n < |s| && n < 5 && s[n] < 128
    ensures Low7(s, n + 1) < TWO_32 <==> n < 4 || s[n] < 16
  {
    if n < 4 {
      Low7Below(s, n + 1);
    } else {
      Low7At5(s);
    }
  }

  lemma Varint32Of(s: Stream, v: nat, next: nat)
    requires next <= |s| && DecodeVarint(s, 0, |s|, 5) == Some(Decoded(v, next))
    ensures DecodeVarint32(s) == if v < TWO_32 then Some(Got(v, s[next..])) else None
  {
  }

  /** Of a fifth byte only four bits fit. */
  lemma Varint32Stops(s: Stream, n: nat, value: nat)
    requires n < |s| && n < 5 && AllContinue(s, n) && s[n] < 128 && value == Low7(s, n + 1) % TWO_32
    ensures DecodeVarint32(s) == if n == 4 && s[n] >= 16 then None else Some(Got(value, s[n + 1..]))
  {
    var v := Low7(s, n + 1);
    Low7At(s, n);
    VarintStops(s, n, 5);
    Varint32Of(s, v, n + 1);
  }

  lemma Varint32Cut(s: Stream, n: nat)
    requires n == |s| && n <= 5 && AllContinue(s, n)
    ensures DecodeVarint32(s) == None
  {
    VarintEnds(s, n, 5);
  }

  ghost function Padded(value: nat, rest: Option<Stream>): Option<Got<nat>> {
    if rest == None then None else Some(Got(value, rest.value))
  }

  /** Beyond five bytes only padding may follow. */
  lemma Varint32Pads(s: Stream, value: nat)
    requires 5 <= |s| && AllContinue(s, 5) && value == Low7(s, 5) % TWO_32
    ensures DecodeVarint32(s) == Padded(value, Padding(s[5..], value >= 0x8000_0000, 35))
  {
    VarintEnds(s, 5, 5);
  }

  /** The end of a message. */
  ghost function Ended(fields: seq<Field>, m: Message, seen: set<nat>, rest: Stream): Option<Got<Message>> {
    if Complete(fields, seen) then Some(Got(m, rest)) else None
  }

  lemma Unknown(fields: seq<Field>, tag: nat)
    requires forall i: nat :: i <= |fields| ==> !IsTag(fields, i, tag)
    ensures IndexOf(fields, tag, 0) == None && (fields == [] ==> tag != 0)
  {
    if fields == [] {
      assert !IsTag(fields, 0, tag);
    }
    var found := IndexOf(fields, tag, 0);
    if found.Some? {
      assert IsTag(fields, found.value, tag);
    }
  }

  lemma UnknownStep(fields: seq<Field>, m: Message, seen: set<nat>, s: Stream)
    requires |m| == |fields| && s != [] && DecodeTag(s).Key?
    requires IndexOf(fields, DecodeTag(s).tag, 0) == None && (fields == [] ==> DecodeTag(s).tag != 0)
    ensures var after := SkipField(DecodeTag(s).rest, DecodeTag(s).wire);
            DecodeLoop(fields, m, seen, s) == if after == None then None else DecodeLoop(fields, m, seen, after.value)
  {
  }

  lemma KnownStep(fields: seq<Field>, m: Message, seen: set<nat>, s: Stream, i: nat)
    requires DistinctTags(fields) && |m| == |fields| && s != [] && DecodeTag(s).Key?
    requires i < |fields| && fields[i].tag == DecodeTag(s).tag
    ensures var got := DecodeField(fields, m, i, DecodeTag(s).wire, DecodeTag(s).rest);
            DecodeLoop(fields, m, seen, s) ==
              if got == None then None
              else DecodeLoop(fields, got.value.value, Mark(fields, seen, i), got.value.rest)
  {
    assert IndexOf(fields, fields[i].tag, 0) == Some(i);
  }

  lemma Fixed32Prefix(s: Stream)
    requires |s| >= 4
    ensures DecodeFixed32(s[..4]) == DecodeFixed32(s)
  {
  }

  class IStream {
    const buf: seq<byte>
    var state: nat
    var bytesLeft: nat

    ghost predicate Valid()
      reads this
    {
      state + bytesLeft <= |buf|
    }

    ghost function Rest(): Stream
      requires Valid()
      reads this
    {
      buf[state..state + bytesLeft]
    }

    ghost function End(): nat
      reads this
    {
      state + bytesLeft
    }

    constructor (buf: seq<byte>, state: nat, bytesLeft: nat)
      requires state + bytesLeft <= |buf|
      ensures Valid() && this.buf == buf && this.state == state && this.bytesLeft == bytesLeft
    {
      this.buf, this.state, this.bytesLeft := buf, state, bytesLeft;
    }

    /** A read that gives `got` of the stream before it. */
    ghost predicate Gives<T>(got: Option<Got<T>>, ok: bool, value: T)
      requires Valid()
      reads this
    {
      && (ok <==> got.Some?)
      && (ok ==> value == got.value.value && Rest() == got.value.rest)
    }

    /** Where the stream ends stays put, but a failed read may have given up part of it. */
    ghost predicate Within(ok: bool, end: nat)
      reads this
    {
      End() <= end && (ok ==> End() == end)
    }

    method Read(count: nat) returns (ok: bool, data: seq<byte>)
      requires Valid()
      modifies this
      ensures Valid() && End() == old(End())
      ensures ok <==> count <= |old(Rest())|
      ensures ok ==> data == old(Rest())[..count] && Rest() == old(Rest())[count..]
      ensures !ok ==> Rest() == old(Rest())
    {
      if bytesLeft < count {
        return false, [];
      }
      data := buf[state..state + count];
      state, bytesLeft := state + count, bytesLeft - count;
      ok := true;
    }

    method ReadByte() returns (ok: bool, b: byte)
      requires Valid()
      modifies this
      ensures Valid() && End() == old(End())
      ensures ok <==> old(Rest()) != []
      ensures ok ==> b == old(Rest())[0] && Rest() == old(Rest())[1..]
      ensures !ok ==> Rest() == old(Rest())
    {
      if bytesLeft == 0 {
        return false, 0;
      }
      b := buf[state];
      state, bytesLeft := state + 1, bytesLeft - 1;
      ok := true;
    }

    method ReadVarint64() returns (ok: bool, value: nat)
      requires Valid()
      modifies this
      ensures Valid() && End() == old(End()) && Gives(DecodeVarint64(old(Rest())), ok, value)
    {
      ghost var s, n := Rest(), 0;
      var bitpos, weight: nat, more := 0, 1, true;
      value := 0;
      while more
        invariant Valid() && End() == old(End()) && n <= 10 && bitpos == 7 * n
        invariant more ==> n <= |s| && Rest() == s[n..] && AllContinue(s, n)
        invariant more ==> weight == Power128(n) && value == Low7(s, n) % TWO_64
        invariant !more ==> DecodeVarint64(s) == Some(Got(value, Rest()))
        decreases more, 10 - n
      {
        if bitpos >= 64 {
          VarintEnds(s, n, 10);
          return false, 0;
        }
        var got, b := ReadByte();
        if !got {
          VarintEnds(s, n, 10);
          return false, 0;
        }
        TakeIs(s, n, value, weight, true);
        if b < 128 {
          VarintStops(s, n, 10);
        }
        value := Take(value, weight, b, true);
        bitpos, weight, more, n := bitpos + 7, 128 * weight, b >= 128, n + 1;
      }
      ok := true;
    }

    /** A method that drops bytes and ends where `after` says. */
    ghost predicate Drops(after: Option<Stream>, ok: bool)
      requires Valid()
      reads this
    {
      (ok <==> after.Some?) && (ok ==> Rest() == after.value)
    }

    /** The varint loop once `bitpos` has passed 32: a byte may only extend `value`. */
    method ReadPadding(value: nat) returns (ok: bool)
      requires Valid()
      modifies this
      ensures Valid() && End() == old(End()) && Drops(Padding(old(Rest()), value >= 0x8000_0000, 35), ok)
    {
      ghost var negative := value >= 0x8000_0000;
      ghost var goal := Padding(Rest(), negative, 35);
      var bitpos, more := 35, true;
      while more
        invariant Valid() && End() == old(End())
        invariant goal == if more then Padding(Rest(), negative, bitpos) else Some(Rest())
        decreases more, |Rest()|
      {
        var got, b := ReadByte();
        if !got {
          return false;
        }
        var signExtension := if bitpos < 63 then 0xFF else 0x01;
        if Bits7(b) != 0 && (value < 0x8000_0000 || b as nat != signExtension) {
          return false;
        }
        bitpos, more := bitpos + 7, b >= 128;
      }
      ok := true;
    }

    /** `eof` tells a stream that was at its end from one that broke off. */
    method ReadVarint32() returns (ok: bool, value: nat, eof: bool)
      requires Valid()
      modifies this
      ensures Valid() && End() == old(End()) && Gives(DecodeVarint32(old(Rest())), ok, value)
      ensures (eof <==> old(Rest()) == []) && (eof ==> Rest() == [])
    {
      ghost var s, n := Rest(), 1;
      var got, b := ReadByte();
      if !got {
        return false, 0, true;
      }
      value, eof := Bits7(b), false;
      Low7Single(s);
      if b < 128 {
        Varint32Stops(s, 0, value);
        return true, value, false;
      }
      Powers();
      var bitpos, weight: nat := 7, 128;
      while b >= 128 && bitpos < 32
        invariant Valid() && End() == old(End()) && bitpos == 7 * n && n <= 5
        invariant b >= 128 ==>
                    && n <= |s| && Rest() == s[n..] && AllContinue(s, n)
                    && weight == Power128(n) && value == Low7(s, n) % TWO_32
        invariant b < 128 ==> DecodeVarint32(s) == if n == 5 && b >= 16 then None else Some(Got(value, Rest()))
        decreases |Rest()|
      {
        got, b := ReadByte();
        if !got {
          Varint32Cut(s, n);
          return false, 0, false;
        }
        TakeIs(s, n, value, weight, false);
        value, weight := Take(value, weight, b, false), 128 * weight;
        if b < 128 {
          Varint32Stops(s, n, value);
        }
        bitpos, n := bitpos + 7, n + 1;
      }
      if b >= 128 {
        Varint32Pads(s, value);
        ok := ReadPadding(value);
      } else {
        ok := bitpos != 35 || b < 16;
      }
    }

    /** pb_decode_tag; a zero key also counts as the end. */
    method ReadTag() returns (ok: bool, wire: nat, tag: nat, eof: bool)
      requires Valid()
      modifies this
      ensures Valid() && End() == old(End())
      ensures match DecodeTag(old(Rest()))
              case Key(t, w, rest) => ok && tag == t && wire == w && Rest() == rest
              case Eof(rest) => !ok && eof && Rest() == rest
              case Bad => !ok && !eof
      ensures ok ==> bytesLeft < old(bytesLeft)
    {
      wire, tag := 0, 0;
      var temp;
      ok, temp, eof := ReadVarint32();
      if !ok {
        return;
      }
      if temp == 0 {
        return false, 0, 0, true;
      }
      tag, wire := temp / 8, temp % 8;
    }

    method SkipVarintBytes() returns (ok: bool)
      requires Valid()
      modifies this
      ensures Valid() && End() == old(End()) && Drops(SkipVarint(old(Rest())), ok)
    {
      var more := true;
      while more
        invariant Valid() && End() == old(End())
        invariant if more then SkipVarint(old(Rest())) == SkipVarint(Rest())
                  else SkipVarint(old(Rest())) == Some(Rest())
        decreases more, |Rest()|
      {
        var got, b := ReadByte();
        if !got {
          return false;
        }
        more := b >= 128;
      }
      ok := true;
    }

    method SkipBytes(count: nat) returns (ok: bool)
      requires Valid()
      modifies this
      ensures Valid() && End() == old(End()) && Drops(Skip(old(Rest()), count), ok)
    {
      var dropped;
      ok, dropped := Read(count);
    }

    method SkipUnknown(wire: nat) returns (ok: bool)
      requires Valid()
      modifies this
      ensures Valid() && End() == old(End()) && Drops(SkipField(old(Rest()), wire), ok)
      ensures ok ==> bytesLeft <= old(bytesLeft)
    {
      if wire == WT_VARINT {
        ok := SkipVarintBytes();
      } else if wire == WT_64BIT {
        ok := SkipBytes(8);
      } else if wire == WT_STRING {
        var length, eof;
        ok, length, eof := ReadVarint32();
        if ok {
          ok := SkipBytes(length);
        }
      } else if wire == WT_32BIT {
        ok := SkipBytes(4);
      } else {
        ok := false;
      }
    }

    /** A stream over the string that comes next; until it is closed this one still stands before the
        string but no longer counts it. */
    method MakeSubstream() returns (ok: bool, sub: IStream)
      requires Valid()
      modifies this
      ensures Valid() && fresh(sub) && (ok <==> ReadString(old(Rest())).Some?) && End() <= old(End())
      ensures ok ==> sub.Valid() && sub.buf == buf && sub.Rest() == ReadString(old(Rest())).value.value
      ensures ok ==> sub.End() + bytesLeft == old(End())
                     && buf[sub.End()..sub.End() + bytesLeft] == ReadString(old(Rest())).value.rest
    {
      var size, eof;
      ok, size, eof := ReadVarint32();
      if !ok || bytesLeft < size {
        sub := new IStream([], 0, 0);
        return false, sub;
      }
      sub := new IStream(buf, state, size);
      bytesLeft := bytesLeft - size;
    }

    /** What the substream left is skipped. */
    method CloseSubstream(sub: IStream) returns (ok: bool)
      requires sub != this && sub.Valid() && sub.buf == buf && sub.End() + bytesLeft <= |buf|
      modifies this, sub
      ensures ok && Valid() && End() == old(sub.End()) + old(bytesLeft)
      ensures Rest() == buf[old(sub.End())..old(sub.End()) + old(bytesLeft)]
    {
      if sub.bytesLeft > 0 {
        var dropped;
        ok, dropped := sub.Read(sub.bytesLeft);
        if !ok {
          return false;
        }
      }
      state := sub.state;
      ok := true;
    }

    method ReadScalar(kind: Kind) returns (ok: bool, v: Value)
      requires Valid() && kind.Packable()
      modifies this
      ensures Valid() && End() == old(End()) && Gives(DecodeScalar(kind, old(Rest())), ok, v)
      ensures ok ==> bytesLeft < old(bytesLeft)
    {
      v := Number(0);
      if kind.Fixed32? {
        var data;
        ok, data := Read(4);
        if ok {
          Fixed32Prefix(old(Rest()));
          v := Number(DecodeFixed32(data));
        }
        return;
      }
      if kind.Fixed64? {
        var data;
        ok, data := Read(8);
        if ok {
          Fixed64Prefix(data, old(Rest()));
          v := Number(DecodeFixed64(data));
        }
        return;
      }
      var value;
      ok, value := ReadVarint64();
      if !ok {
        return;
      }
      if kind.Varint? {
        var wide := if kind.size == 8 then Signed(8, value) else Signed(4, value);
        ok, v := Range(kind.size) > 0 && Signed(kind.size, wide) == wide, Number(wide);
      } else if kind.UVarint? {
        ok, v := FitsUnsigned(kind.size, value), Number(value);
      } else {
        var signed := UnZigZag(value);
        ok, v := Range(kind.size) > 0 && Signed(kind.size, signed) == signed, Number(signed);
      }
    }

    /** Bytes, strings and fixed-length bytes. */
    method ReadData(kind: Kind) returns (ok: bool, v: Value)
      requires Valid() && !kind.Packable() && !kind.Submessage?
      modifies this
      ensures Valid() && End() == old(End())
      ensures var got := ReadString(old(Rest()));
              Gives(if got == None then None else StoreBytes(kind, got.value), ok, v)
    {
      v := Data([]);
      var size, eof;
      ok, size, eof := ReadVarint32();
      if !ok {
        return;
      }
      match kind {
        case Text(max) =>
          if size > max {
            return false, v;
          }
        case String(max) =>
          if size + 1 > max {
            return false, v;
          }
        case FixedBytes(length) =>
          if size == 0 {
            assert Rest()[..0] == [] && Rest()[0..] == Rest();
            return true, Data(Zeros(length));
          }
          if size != length {
            return false, v;
          }
        case _ =>
      }
      var data;
      ok, data := Read(size);
      v := Data(if kind.String? then UpToNul(data) else data);
    }

    /** The function the descriptor's type selects; `current` is what is in the field's memory. */
    method ReadValue(field: Field, current: Value) returns (ok: bool, v: Value)
      requires Valid() && WellFormedField(field)
      modifies this
      ensures Valid() && Gives(DecodeValue(field, current, old(Rest())), ok, v) && Within(ok, old(End()))
      decreases field, 0
    {
      var kind := field.kind;
      if kind.Packable() {
        ok, v := ReadScalar(kind);
        return;
      }
      if !kind.Submessage? {
        ok, v := ReadData(kind);
        return;
      }
      v := current;
      var sub;
      ok, sub := MakeSubstream();
      if !ok {
        return;
      }
      var status, inner := sub.DecodeNoInit(kind.fields, Target(kind.fields, current));
      ok := CloseSubstream(sub);
      ok, v := status, Nested(inner);
    }

    method ReadPacked(kind: Kind, max: nat, slot: seq<Value>) returns (ok: bool, values: seq<Value>)
      requires Valid() && kind.Packable()
      modifies this
      ensures Valid()
      ensures var got := ReadString(old(Rest()));
              var all := if got == None then None else DecodePacked(kind, max, slot, got.value.value);
              (ok <==> all.Some?) && (ok ==> values == all.value && Rest() == got.value.rest)
      ensures Within(ok, old(End()))
    {
      values := slot;
      var sub;
      ok, sub := MakeSubstream();
      if !ok {
        return;
      }
      var status;
      status, values := sub.ReadElements(kind, max, slot);
      if !status {
        return false, values;
      }
      ok := CloseSubstream(sub);
    }

    /** The loop over a packed array, in its substream: the array must have room for all of it. */
    method ReadElements(kind: Kind, max: nat, slot: seq<Value>) returns (ok: bool, values: seq<Value>)
      requires Valid() && kind.Packable()
      modifies this
      ensures Valid() && End() == old(End())
      ensures var all := DecodePacked(kind, max, slot, old(Rest())); (ok <==> all.Some?) && (ok ==> values == all.value)
    {
      values := slot;
      ghost var goal := DecodePacked(kind, max, slot, Rest());
      while bytesLeft > 0 && |values| < max
        invariant Valid() && End() == old(End()) && goal == DecodePacked(kind, max, values, Rest())
        decreases bytesLeft
      {
        var got, v := ReadScalar(kind);
        if !got {
          return false, values;
        }
        values := values + [v];
      }
      ok := bytesLeft == 0;
    }

    /** decode_static_field. */
    method ReadField(fields: seq<Field>, m: Message, i: nat, wire: nat) returns (ok: bool, r: Message)
      requires Valid() && WellFormed(fields) && |m| == |fields| && i < |fields|
      modifies this
      ensures Valid() && Gives(DecodeField(fields, m, i, wire, old(Rest())), ok, r) && Within(ok, old(End()))
      ensures ok ==> bytesLeft < old(bytesLeft)
      decreases fields, 0, 0
    {
      var field := fields[i];
      assert WellFormedField(fields[i]);
      r := m;
      if field.rule.Repeated? && wire == WT_STRING && field.kind.Packable() {
        var values;
        ok, values := ReadPacked(field.kind, field.rule.max, m[i]);
        r := m[i := values];
        return;
      }
      if field.rule.Repeated? && |m[i]| >= field.rule.max {
        return false, m;
      }
      var v;
      ok, v := ReadValue(fields[i], StartsFrom(field, m[i]));
      r := StoreValue(fields, m, i, v);
    }

    /** The flags of the required fields, as far as there are flags. */
    ghost predicate AreFlags(flags: seq<bool>, seen: set<nat>) {
      |flags| == MAX_REQUIRED_FIELDS && forall k: nat :: k < MAX_REQUIRED_FIELDS ==> (flags[k] <==> k in seen)
    }

    method DecodeNoInit(fields: seq<Field>, m: Message) returns (ok: bool, r: Message)
      requires Valid() && WellFormed(fields) && |m| == |fields|
      modifies this
      ensures Valid() && Gives(DecodeLoop(fields, m, {}, old(Rest())), ok, r) && Within(ok, old(End()))
      decreases fields, 1
    {
      r := m;
      var iter := new FieldIter(fields);
      var fieldsSeen := seq(MAX_REQUIRED_FIELDS, _ => false);
      ghost var seen, goal := {}, DecodeLoop(fields, m, {}, Rest());
      var more := true;
      while more && bytesLeft > 0
        invariant Valid() && End() == old(End()) && iter.Valid() && iter.fields == fields && fresh(iter)
        invariant |r| == |fields| && AreFlags(fieldsSeen, seen)
        invariant more ==> goal == DecodeLoop(fields, r, seen, Rest())
        invariant !more ==> goal == Ended(fields, r, seen, Rest())
        decreases more, bytesLeft
      {
        ghost var before := Rest();
        var got, wire, tag, eof := ReadTag();
        if !got {
          if !eof {
            return false, r;
          }
          more := false;
        } else {
          var found := iter.Find(tag);
          if !found {
            Unknown(fields, tag);
            UnknownStep(fields, r, seen, before);
            var skipped := SkipUnknown(wire);
            if !skipped {
              return false, r;
            }
          } else {
            if fields == [] {
              return false, r;
            }
            KnownStep(fields, r, seen, before, iter.pos);
            if fields[iter.pos].rule.Required? && iter.requiredFieldIndex < MAX_REQUIRED_FIELDS {
              fieldsSeen := fieldsSeen[iter.requiredFieldIndex := true];
            }
            seen := Mark(fields, seen, iter.pos);
            var decoded;
            decoded, r := ReadField(fields, r, iter.pos, wire);
            if !decoded {
              return false, r;
            }
          }
        }
      }
      ok := AllSeen(iter, fieldsSeen, seen);
    }

    /** The first 64 of the required fields are checked. */
    method AllSeen(iter: FieldIter, flags: seq<bool>, ghost seen: set<nat>) returns (ok: bool)
      requires iter.Valid() && AreFlags(flags, seen)
      modifies iter
      ensures ok <==> Complete(iter.fields, seen)
    {
      var count := CountRequired(iter);
      if count > MAX_REQUIRED_FIELDS {
        count := MAX_REQUIRED_FIELDS;
      }
      var i := 0;
      while i < count
        invariant i <= count
        invariant forall k: nat :: k < i ==> k in seen
      {
        if !flags[i] {
          return false;
        }
        i := i + 1;
      }
      ok := true;
    }

    /** The walk to the end of the array, from wherever the iterator stands. */
    method CountRequired(iter: FieldIter) returns (count: nat)
      requires iter.Valid()
      modifies iter
      ensures count == RequiredBefore(iter.fields, |iter.fields|)
    {
      count := 0;
      var fields := iter.fields;
      var lastRequired, more := false, true;
      while more
        invariant iter.Valid()
        invariant !more ==> iter.pos == 0
        invariant !more && fields != [] ==>
                    lastRequired == fields[|fields| - 1].rule.Required? && count == RequiredBefore(fields, |fields| - 1)
        invariant !more && fields == [] ==> count == 0
        decreases more, |fields| - iter.pos
      {
        count := iter.requiredFieldIndex;
        lastRequired := iter.pos < |fields| && fields[iter.pos].rule.Required?;
        more := iter.Next();
      }
      if lastRequired && fields != [] {
        count := count + 1;
      }
    }

    /** pb_decode. */
    method DecodeMessage(fields: seq<Field>) returns (ok: bool, r: Message)
      requires Valid() && WellFormed(fields)
      modifies this
      ensures Valid() && Gives(Decode(fields, old(Rest())), ok, r)
    {
      ok, r := DecodeNoInit(fields, Defaults(fields));
    }
  }
}
