/** The log format and what a reader makes of it (db/log_format.h, db/log_writer.cc, db/log_reader.cc).

    A log is a sequence of 32 KB blocks.  A record is cut into fragments that never span blocks; fewer
    than seven bytes at the end of a block are filled with zeros. */
module LogFormat {
  import opened Bytes

  const BLOCK_SIZE: nat := 32768
  const HEADER_SIZE: nat := 7

  datatype RecordType = Zero | Full | First | Middle | Last

  function TypeCode(t: RecordType): byte {
    match t case Zero => 0 case Full => 1 case First => 2 case Middle => 3 case Last => 4
  }

  /** Checksums are an arbitrary function of the bytes covered. */
  type Checksum = seq<byte> -> uint32

  /** Header and payload of one fragment. */
  function Physical(crc: Checksum, t: RecordType, payload: seq<byte>): (r: seq<byte>)
    requires |payload| <= 0xffff
    ensures |r| == HEADER_SIZE + |payload|
  {
    EncodeFixed32(Mask(crc([TypeCode(t)] + payload)))
      + [(|payload| % 256) as byte, (|payload| / 256) as byte, TypeCode(t)] + payload
  }

  /** The zeros written before a fragment that starts at offset `off` of a block. */
  function Trailer(off: nat): nat
    requires off <= BLOCK_SIZE
  {
    if BLOCK_SIZE - off < HEADER_SIZE then BLOCK_SIZE - off else 0
  }

  function FragmentStart(off: nat): (start: nat)
    requires off <= BLOCK_SIZE
    ensures start + HEADER_SIZE <= BLOCK_SIZE
  {
    if BLOCK_SIZE - off < HEADER_SIZE then 0 else off
  }

  function Min(a: nat, b: nat): nat { if a < b then a else b }

  function FragmentLength(off: nat, left: nat): nat
    requires off <= BLOCK_SIZE
  {
    Min(left, BLOCK_SIZE - FragmentStart(off) - HEADER_SIZE)
  }

  function FragmentType(begin: bool, end: bool): RecordType {
    if begin && end then Full else if begin then First else if end then Last else Middle
  }

  /** The bytes of a record, or of what is left of it, written from offset `off` of a block. */
  function Frame(crc: Checksum, off: nat, data: seq<byte>, begin: bool): seq<byte>
    requires off <= BLOCK_SIZE
    decreases |data|, if BLOCK_SIZE - off == HEADER_SIZE then 1 else 0
  {
    var n := FragmentLength(off, |data|);
    var fragment := Zeros(Trailer(off)) + Physical(crc, FragmentType(begin, n == |data|), data[..n]);
    if n == |data| then fragment
    else fragment + Frame(crc, FragmentStart(off) + HEADER_SIZE + n, data[n..], false)
  }

  /** Where the writer stands in its block after a file of length `p`. */
  function Offset(p: nat): (off: nat)
    ensures off < BLOCK_SIZE
  {
    p % BLOCK_SIZE
  }

  /** The writer stands at offset `off` of its block; the end of a block is the start of the next. */
  ghost predicate StandsAt(p: nat, off: nat) {
    off <= BLOCK_SIZE && Offset(p) == if off == BLOCK_SIZE then 0 else off
  }

  /** The bytes of one record, given the position where they start. */
  type Framing = (nat, seq<byte>) -> seq<byte>

  function Framer(crc: Checksum): Framing {
    (p: nat, record: seq<byte>) => Frame(crc, Offset(p), record, true)
  }

  /** The bytes of a list of records, written from position `p` of a file. */
  function LogFrom(frame: Framing, p: nat, records: seq<seq<byte>>): seq<byte>
    decreases |records|
  {
    if records == [] then []
    else frame(p, records[0]) + LogFrom(frame, p + |frame(p, records[0])|, records[1..])
  }

  /** A whole log file. */
  function Log(crc: Checksum, records: seq<seq<byte>>): seq<byte> {
    LogFrom(Framer(crc), 0, records)
  }

  // ------------------------------------------------------------------ reading

  /** One physical read: a fragment, a bad one, or the end of the file, and the position after it. */
  datatype Fragment = Read(code: byte, payload: seq<byte>, next: nat) | Bad(reported: bool, next: nat) | Eof

  function BlockEnd(p: nat): nat {
    (p / BLOCK_SIZE + 1) * BLOCK_SIZE
  }

  /** What the bytes left in a block, which starts at position `p`, begin with; `eof` says that the
      file ends in this block. */
  function Parse(crc: Checksum, buffer: seq<byte>, p: nat, eof: bool): (r: Fragment)
    requires |buffer| >= HEADER_SIZE
    ensures !r.Eof? ==> p < r.next <= p + |buffer|
  {
    var length := buffer[4] as int + 256 * buffer[5] as int;
    if HEADER_SIZE + length > |buffer| then
      if eof then Eof else Bad(true, p + |buffer|)
    else if buffer[6] == 0 && length == 0 then Bad(false, p + |buffer|)
    else if Unmask(DecodeFixed32(buffer)) != crc(buffer[6..HEADER_SIZE + length]) then Bad(true, p + |buffer|)
    else Read(buffer[6], buffer[HEADER_SIZE..HEADER_SIZE + length], p + HEADER_SIZE + length)
  }

  /** What is read from position `p` on of the block that holds it. */
  function ReadInBlock(crc: Checksum, file: seq<byte>, p: nat): (r: Fragment)
    requires p <= |file|
    ensures !r.Eof? ==> p < r.next <= |file|
  {
    var end := Min(BlockEnd(p), |file|);
    if end - p < HEADER_SIZE then Eof else Parse(crc, file[p..end], p, |file| < BlockEnd(p))
  }

  /** What is read from position `p` of a file, where everything before has been consumed: too few
      bytes for a header are the trailer of a block, unless the file ends there. */
  function ReadPhysical(crc: Checksum, file: seq<byte>, p: nat): (r: Fragment)
    requires p <= |file|
    ensures !r.Eof? ==> p < r.next <= |file|
  {
    ReadInBlock(crc, file, if BlockEnd(p) - p < HEADER_SIZE && BlockEnd(p) <= |file| then BlockEnd(p) else p)
  }

  /** What has been collected of a logical record: fragments so far, or all of it. */
  datatype Assembly = Open(inFragmented: bool, scratch: seq<byte>) | Complete(record: seq<byte>)

  const START := Open(false, [])

  /** The effect of one good fragment, and whether it is reported as corruption. */
  function Assemble(a: Assembly, code: byte, payload: seq<byte>): (Assembly, bool)
    requires a.Open?
  {
    if code == TypeCode(Full) then (Complete(payload), a.inFragmented && a.scratch != [])
    else if code == TypeCode(First) then (Open(true, payload), a.inFragmented && a.scratch != [])
    else if code == TypeCode(Middle) then
      if a.inFragmented then (Open(true, a.scratch + payload), false) else (a, true)
    else if code == TypeCode(Last) then
      if a.inFragmented then (Complete(a.scratch + payload), false) else (a, true)
    else (START, true)
  }

  /** The effect of a bad fragment: a record in progress is given up with a report. */
  function GiveUp(a: Assembly): (Assembly, bool)
    requires a.Open?
  {
    if a.inFragmented then (START, true) else (a, false)
  }

  function Count(b: bool): nat { if b then 1 else 0 }

  /** A record in progress and the number of reports after one more fragment. */
  function Collected(f: Fragment, a: Assembly, reports: nat): (Assembly, nat)
    requires !f.Eof? && a.Open?
  {
    match f
    case Bad(reported, _) => (GiveUp(a).0, reports + Count(reported) + Count(GiveUp(a).1))
    case Read(code, payload, _) => (Assemble(a, code, payload).0, reports + Count(Assemble(a, code, payload).1))
  }

  /** One logical read: a record and the position after it, or the end; and the reports on the way. */
  datatype Result = Record(record: seq<byte>, next: nat, reports: nat) | End(reports: nat)

  /** A physical reader moves forward inside the file. */
  ghost predicate Advancing(read: nat -> Fragment, limit: nat) {
    forall p: nat :: p <= limit && !read(p).Eof? ==> p < read(p).next <= limit
  }

  /** The reassembly of a record from position `p`, with what has been collected so far. */
  ghost function ReadRecord(read: nat -> Fragment, limit: nat, p: nat, a: Assembly, reports: nat): (r: Result)
    requires p <= limit && a.Open? && Advancing(read, limit)
    ensures r.Record? ==> p < r.next <= limit
    decreases limit - p
  {
    if read(p).Eof? then End(reports) else
      var (after, n) := Collected(read(p), a, reports);
      if after.Complete? then Record(after.record, read(p).next, n)
      else ReadRecord(read, limit, read(p).next, after, n)
  }

  /** The physical reader of a file. */
  function Reader(crc: Checksum, file: seq<byte>): nat -> Fragment {
    (p: nat) => if p <= |file| then ReadPhysical(crc, file, p) else Eof
  }

  /** All records read from position `p` on, and the number of corruption reports. */
  ghost function ReadAll(read: nat -> Fragment, limit: nat, p: nat): (seq<seq<byte>>, nat)
    requires p <= limit && Advancing(read, limit)
    decreases limit - p
  {
    match ReadRecord(read, limit, p, START, 0)
    case End(reports) => ([], reports)
    case Record(record, next, reports) =>
      var (rest, more) := ReadAll(read, limit, next);
      ([record] + rest, reports + more)
  }

  lemma ReaderAdvances(crc: Checksum, file: seq<byte>)
    ensures Advancing(Reader(crc, file), |file|)
  {
  }

  /** What a file holds, read from its start. */
  ghost function Contents(crc: Checksum, file: seq<byte>): (seq<seq<byte>>, nat) {
    ReaderAdvances(crc, file);
    ReadAll(Reader(crc, file), |file|, 0)
  }

  // ------------------------------------------------------------------ round trip

  /** `bytes` were written at position `p`; the file may end before they do. */
  ghost predicate At(file: seq<byte>, p: nat, bytes: seq<byte>) {
    p <= |file| && forall k :: 0 <= k < |bytes| && p + k < |file| ==> file[p + k] == bytes[k]
  }

  lemma AtConcat(file: seq<byte>, p: nat, a: seq<byte>, b: seq<byte>)
    requires At(file, p, a + b)
    ensures At(file, p, a)
    ensures p + |a| <= |file| ==> At(file, p + |a|, b)
  {
    assert forall k :: 0 <= k < |a| ==> (a + b)[k] == a[k];
    assert forall k :: 0 <= k < |b| ==> (a + b)[|a| + k] == b[k];
  }

  lemma AtWhole(file: seq<byte>, p: nat, bytes: seq<byte>)
    requires At(file, p, bytes) && p + |bytes| <= |file|
    ensures file[p..p + |bytes|] == bytes
  {
  }

  lemma PhysicalFields(crc: Checksum, t: RecordType, payload: seq<byte>, buffer: seq<byte>)
    requires |payload| <= 0xffff && |buffer| >= HEADER_SIZE && At(buffer, 0, Physical(crc, t, payload))
    ensures buffer[4] as int + 256 * buffer[5] as int == |payload| && buffer[6] == TypeCode(t)
  {
    var physical := Physical(crc, t, payload);
    assert buffer[4] == physical[4] == (|payload| % 256) as byte;
    assert buffer[5] == physical[5] == (|payload| / 256) as byte;
    assert buffer[6] == physical[6] == TypeCode(t);
  }

  lemma PhysicalChecksum(crc: Checksum, t: RecordType, payload: seq<byte>, rest: seq<byte>)
    requires |payload| <= 0xffff
    ensures DecodeFixed32(Physical(crc, t, payload) + rest) == Mask(crc([TypeCode(t)] + payload))
  {
    var masked := Mask(crc([TypeCode(t)] + payload));
    var tail := [(|payload| % 256) as byte, (|payload| / 256) as byte, TypeCode(t)] + payload + rest;
    assert Physical(crc, t, payload) + rest == EncodeFixed32(masked) + tail;
    Fixed32RoundTrip(masked, tail);
  }

  /** A fragment parses back when it lies wholly in the buffer; a torn one reads as the end. */
  lemma FragmentParses(crc: Checksum, buffer: seq<byte>, p: nat, eof: bool, t: RecordType, payload: seq<byte>)
    requires !t.Zero? && |payload| <= 0xffff && |buffer| >= HEADER_SIZE
    requires At(buffer, 0, Physical(crc, t, payload)) && (|buffer| < HEADER_SIZE + |payload| ==> eof)
    ensures Parse(crc, buffer, p, eof)
         == if HEADER_SIZE + |payload| <= |buffer| then Read(TypeCode(t), payload, p + HEADER_SIZE + |payload|) else Eof
  {
    PhysicalFields(crc, t, payload, buffer);
    if HEADER_SIZE + |payload| <= |buffer| {
      var physical := Physical(crc, t, payload);
      AtWhole(buffer, 0, physical);
      assert buffer == physical + buffer[|physical|..];
      assert buffer[HEADER_SIZE..HEADER_SIZE + |payload|] == payload;
      assert buffer[6..HEADER_SIZE + |payload|] == [TypeCode(t)] + payload;
      PhysicalChecksum(crc, t, payload, buffer[|physical|..]);
      UnmaskMask(crc([TypeCode(t)] + payload));
    }
  }

  lemma FragmentReads(crc: Checksum, file: seq<byte>, p: nat, t: RecordType, payload: seq<byte>)
    requires !t.Zero? && |payload| <= 0xffff && p + HEADER_SIZE + |payload| <= BlockEnd(p)
    requires At(file, p, Physical(crc, t, payload))
    ensures var end := p + HEADER_SIZE + |payload|;
            ReadPhysical(crc, file, p) == if end <= |file| then Read(TypeCode(t), payload, end) else Eof
  {
    var end := Min(BlockEnd(p), |file|);
    if end - p >= HEADER_SIZE {
      assert At(file[p..end], 0, Physical(crc, t, payload));
      FragmentParses(crc, file[p..end], p, |file| < BlockEnd(p), t, payload);
    }
  }

  /** The reader steps over the zeros at the end of a block. */
  lemma TrailerSkips(crc: Checksum, file: seq<byte>, p: nat, off: nat)
    requires p <= |file| && StandsAt(p, off)
    ensures var start := p + Trailer(off);
            if start <= |file| then ReadPhysical(crc, file, p) == ReadPhysical(crc, file, start)
            else ReadPhysical(crc, file, p) == Eof
    ensures Offset(p + Trailer(off)) == FragmentStart(off)
  {
  }

  /** The reader finds one fragment, or the end of the file when the fragment is torn. */
  ghost predicate Finds(read: nat -> Fragment, limit: nat, p: nat, t: RecordType, payload: seq<byte>, next: nat) {
    read(p) == if next <= limit then Read(TypeCode(t), payload, next) else Eof
  }

  /** A fragment, with the zeros before it, was written at position `p`. */
  ghost predicate FragmentAt(crc: Checksum, file: seq<byte>, p: nat, off: nat, t: RecordType, payload: seq<byte>) {
    && StandsAt(p, off) && !t.Zero?
    && FragmentStart(off) + HEADER_SIZE + |payload| <= BLOCK_SIZE
    && At(file, p, Zeros(Trailer(off)) + Physical(crc, t, payload))
  }

  lemma StepReads(crc: Checksum, file: seq<byte>, p: nat, off: nat, t: RecordType, payload: seq<byte>)
    requires FragmentAt(crc, file, p, off, t, payload)
    ensures Finds(Reader(crc, file), |file|, p, t, payload, p + Trailer(off) + HEADER_SIZE + |payload|)
  {
    AtConcat(file, p, Zeros(Trailer(off)), Physical(crc, t, payload));
    TrailerSkips(crc, file, p, off);
    if p + Trailer(off) <= |file| {
      assert p + Trailer(off) + BLOCK_SIZE - FragmentStart(off) == BlockEnd(p + Trailer(off));
      FragmentReads(crc, file, p + Trailer(off), t, payload);
    }
  }

  lemma StandsAfter(p: nat, off: nat, n: nat)
    requires StandsAt(p, off) && FragmentStart(off) + n <= BLOCK_SIZE
    ensures StandsAt(p + Trailer(off) + n, FragmentStart(off) + n)
  {
    var k := p / BLOCK_SIZE;
    assert p == k * BLOCK_SIZE + Offset(p);
    if off == BLOCK_SIZE || BLOCK_SIZE - off >= HEADER_SIZE {
      assert p + Trailer(off) + n == k * BLOCK_SIZE + (FragmentStart(off) + n);
    } else {
      assert p + Trailer(off) + n == (k + 1) * BLOCK_SIZE + n;
    }
  }

  // -------------------------------------------------- reassembly of fragments

  /** The position after a record, or after what is left of it. */
  function FrameEnd(p: nat, off: nat, left: nat): (end: nat)
    requires off <= BLOCK_SIZE
    ensures p < end
    decreases left, if BLOCK_SIZE - off == HEADER_SIZE then 1 else 0
  {
    var n := FragmentLength(off, left);
    var next := p + Trailer(off) + HEADER_SIZE + n;
    if n == left then next else FrameEnd(next, FragmentStart(off) + HEADER_SIZE + n, left - n)
  }

  /** A physical reader finds the fragments of a record, up to the end of the file. */
  ghost predicate FindsFragments(read: nat -> Fragment, limit: nat, p: nat, off: nat, data: seq<byte>, begin: bool)
    requires off <= BLOCK_SIZE
    decreases |data|, if BLOCK_SIZE - off == HEADER_SIZE then 1 else 0
  {
    var n := FragmentLength(off, |data|);
    var next := p + Trailer(off) + HEADER_SIZE + n;
    && Finds(read, limit, p, FragmentType(begin, n == |data|), data[..n], next)
    && (n < |data| && next <= limit ==>
          FindsFragments(read, limit, next, FragmentStart(off) + HEADER_SIZE + n, data[n..], false))
  }

  /** One fragment found is put behind what has been collected. */
  lemma FragmentAssembles(read: nat -> Fragment, limit: nat, p: nat, begin: bool, last: bool, payload: seq<byte>,
                          next: nat, scratch: seq<byte>)
    requires p <= limit && Advancing(read, limit) && (begin ==> scratch == [])
    requires Finds(read, limit, p, FragmentType(begin, last), payload, next)
    ensures ReadRecord(read, limit, p, Open(!begin, scratch), 0) ==
            if next > limit then End(0)
            else if last then Record(scratch + payload, next, 0)
            else ReadRecord(read, limit, next, Open(true, scratch + payload), 0)
  {
    assert begin ==> scratch + payload == payload;
  }

  /** Fragments found are put together again; a record whose end is missing is dropped without a report. */
  lemma {:induction false} FragmentsAssemble(read: nat -> Fragment, limit: nat, p: nat, off: nat,
                                             data: seq<byte>, begin: bool, scratch: seq<byte>)
    requires off <= BLOCK_SIZE && p <= limit && Advancing(read, limit) && (begin ==> scratch == [])
    requires FindsFragments(read, limit, p, off, data, begin)
    ensures ReadRecord(read, limit, p, Open(!begin, scratch), 0) ==
            if FrameEnd(p, off, |data|) <= limit then Record(scratch + data, FrameEnd(p, off, |data|), 0) else End(0)
    decreases |data|, if BLOCK_SIZE - off == HEADER_SIZE then 1 else 0
  {
    var n := FragmentLength(off, |data|);
    var next := p + Trailer(off) + HEADER_SIZE + n;
    FragmentAssembles(read, limit, p, begin, n == |data|, data[..n], next, scratch);
    if n == |data| {
      assert data[..n] == data;
    } else if next <= limit {
      FragmentsAssemble(read, limit, next, FragmentStart(off) + HEADER_SIZE + n, data[n..], false, scratch + data[..n]);
      assert scratch + data[..n] + data[n..] == scratch + data;
    }
  }

  /** A frame is its first fragment and the frame of the rest. */
  lemma FrameSplits(crc: Checksum, file: seq<byte>, p: nat, off: nat, data: seq<byte>, begin: bool)
    requires off <= BLOCK_SIZE && At(file, p, Frame(crc, off, data, begin))
    ensures var n := FragmentLength(off, |data|);
            var next := p + Trailer(off) + HEADER_SIZE + n;
            && At(file, p, Zeros(Trailer(off)) + Physical(crc, FragmentType(begin, n == |data|), data[..n]))
            && (n < |data| && next <= |file| ==>
                  At(file, next, Frame(crc, FragmentStart(off) + HEADER_SIZE + n, data[n..], false)))
  {
    var n := FragmentLength(off, |data|);
    if n < |data| {
      AtConcat(file, p, Zeros(Trailer(off)) + Physical(crc, FragmentType(begin, false), data[..n]),
               Frame(crc, FragmentStart(off) + HEADER_SIZE + n, data[n..], false));
    }
  }

  /** A physical reader finds every fragment that was written. */
  ghost predicate ReadsFragments(read: nat -> Fragment, crc: Checksum, file: seq<byte>) {
    forall p: nat, off: nat, t: RecordType, payload: seq<byte> :: FragmentAt(crc, file, p, off, t, payload) ==>
      Finds(read, |file|, p, t, payload, p + Trailer(off) + HEADER_SIZE + |payload|)
  }

  lemma FilesReadFragments(crc: Checksum, file: seq<byte>)
    ensures ReadsFragments(Reader(crc, file), crc, file)
  {
    forall p: nat, off: nat, t: RecordType, payload: seq<byte> | FragmentAt(crc, file, p, off, t, payload)
      ensures Finds(Reader(crc, file), |file|, p, t, payload, p + Trailer(off) + HEADER_SIZE + |payload|)
    {
      StepReads(crc, file, p, off, t, payload);
    }
  }

  /** The fragments of a frame are found by a reader that finds fragments. */
  lemma {:induction false} FrameIsFound(read: nat -> Fragment, crc: Checksum, file: seq<byte>, p: nat, off: nat,
                                        data: seq<byte>, begin: bool)
    requires ReadsFragments(read, crc, file)
    requires StandsAt(p, off) && At(file, p, Frame(crc, off, data, begin))
    ensures FindsFragments(read, |file|, p, off, data, begin)
    decreases |data|, if BLOCK_SIZE - off == HEADER_SIZE then 1 else 0
  {
    var n := FragmentLength(off, |data|);
    FrameSplits(crc, file, p, off, data, begin);
    assert FragmentAt(crc, file, p, off, FragmentType(begin, n == |data|), data[..n]);
    var next := p + Trailer(off) + HEADER_SIZE + n;
    if n < |data| && next <= |file| {
      StandsAfter(p, off, HEADER_SIZE + n);
      FrameIsFound(read, crc, file, next, FragmentStart(off) + HEADER_SIZE + n, data[n..], false);
    }
  }

  lemma {:induction false} FrameLength(crc: Checksum, p: nat, off: nat, data: seq<byte>, begin: bool)
    requires off <= BLOCK_SIZE
    ensures p + |Frame(crc, off, data, begin)| == FrameEnd(p, off, |data|)
    decreases |data|, if BLOCK_SIZE - off == HEADER_SIZE then 1 else 0
  {
    var n := FragmentLength(off, |data|);
    if n < |data| {
      FrameLength(crc, p + Trailer(off) + HEADER_SIZE + n, FragmentStart(off) + HEADER_SIZE + n, data[n..], false);
    }
  }

  // ------------------------------------------------------------- whole files

  /** A record reads back when it lies wholly inside the file; a torn one reads as the end. */
  ghost predicate ReadsFrames(read: nat -> Fragment, frame: Framing, file: seq<byte>)
    requires Advancing(read, |file|)
  {
    forall p: nat, record: seq<byte> :: p <= |file| && At(file, p, frame(p, record)) ==>
      ReadRecord(read, |file|, p, START, 0)
        == if p + |frame(p, record)| <= |file| then Record(record, p + |frame(p, record)|, 0) else End(0)
  }

  lemma RecordAssembles(read: nat -> Fragment, limit: nat, p: nat, off: nat, record: seq<byte>)
    requires off <= BLOCK_SIZE && p <= limit && Advancing(read, limit)
    requires FindsFragments(read, limit, p, off, record, true)
    ensures var end := FrameEnd(p, off, |record|);
            ReadRecord(read, limit, p, START, 0) == if end <= limit then Record(record, end, 0) else End(0)
  {
    FragmentsAssemble(read, limit, p, off, record, true, []);
    assert [] + record == record;
  }

  lemma RecordReads(read: nat -> Fragment, crc: Checksum, file: seq<byte>, p: nat, off: nat, record: seq<byte>)
    requires Advancing(read, |file|) && ReadsFragments(read, crc, file) && p <= |file| && StandsAt(p, off)
    requires At(file, p, Frame(crc, off, record, true))
    ensures var end := p + |Frame(crc, off, record, true)|;
            ReadRecord(read, |file|, p, START, 0) == if end <= |file| then Record(record, end, 0) else End(0)
  {
    FrameLength(crc, p, off, record, true);
    assert FindsFragments(read, |file|, p, off, record, true) by {
      FrameIsFound(read, crc, file, p, off, record, true);
    }
    RecordAssembles(read, |file|, p, off, record);
  }

  lemma FilesReadFrames(read: nat -> Fragment, crc: Checksum, file: seq<byte>)
    requires Advancing(read, |file|) && ReadsFragments(read, crc, file)
    ensures ReadsFrames(read, Framer(crc), file)
  {
    var frame := Framer(crc);
    forall p: nat, record: seq<byte> | p <= |file| && At(file, p, frame(p, record))
      ensures ReadRecord(read, |file|, p, START, 0)
           == if p + |frame(p, record)| <= |file| then Record(record, p + |frame(p, record)|, 0) else End(0)
    {
      RecordReads(read, crc, file, p, Offset(p), record);
    }
  }

  /** How many of the records written from position `p` lie wholly before position `cut`. */
  ghost function Inside(frame: Framing, p: nat, records: seq<seq<byte>>, cut: nat): (k: nat)
    ensures k <= |records|
    decreases |records|
  {
    if records == [] then 0 else
      var end := p + |frame(p, records[0])|;
      if end <= cut then 1 + Inside(frame, end, records[1..], cut) else 0
  }

  lemma {:induction false} PrefixReads(read: nat -> Fragment, frame: Framing, file: seq<byte>, p: nat,
                                       records: seq<seq<byte>>)
    requires Advancing(read, |file|) && ReadsFrames(read, frame, file) && read(|file|) == Eof
    requires p <= |file| <= p + |LogFrom(frame, p, records)| && At(file, p, LogFrom(frame, p, records))
    ensures ReadAll(read, |file|, p) == (records[..Inside(frame, p, records, |file|)], 0)
    decreases |records|
  {
    if records != [] {
      var end := p + |frame(p, records[0])|;
      AtConcat(file, p, frame(p, records[0]), LogFrom(frame, end, records[1..]));
      if end <= |file| {
        PrefixReads(read, frame, file, end, records[1..]);
        var i := Inside(frame, end, records[1..], |file|);
        assert [records[0]] + records[1..][..i] == records[..i + 1];
      }
    }
  }

  /** The first `k` records of a log, and those after them. */
  lemma {:induction false} LogSplits(frame: Framing, p: nat, records: seq<seq<byte>>, k: nat)
    requires k <= |records|
    ensures LogFrom(frame, p, records)
         == LogFrom(frame, p, records[..k]) + LogFrom(frame, p + |LogFrom(frame, p, records[..k])|, records[k..])
    decreases k
  {
    if k == 0 {
      assert records[k..] == records;
    } else {
      var next := p + |frame(p, records[0])|;
      LogSplits(frame, next, records[1..], k - 1);
      assert records[..k][1..] == records[1..][..k - 1] && records[1..][k - 1..] == records[k..];
      assert LogFrom(frame, p, records[..k]) == frame(p, records[0]) + LogFrom(frame, next, records[..k][1..]);
      Regroup(frame(p, records[0]), LogFrom(frame, next, records[1..][..k - 1]),
              LogFrom(frame, p + |LogFrom(frame, p, records[..k])|, records[k..]));
    }
  }

  lemma Regroup(a: seq<byte>, b: seq<byte>, c: seq<byte>)
    ensures a + (b + c) == (a + b) + c
  {
  }

  /** `k` records lie wholly before the cut, and the next one, if any, does not. */
  ghost predicate CutsAfter(frame: Framing, p: nat, records: seq<seq<byte>>, cut: nat, k: nat) {
    && k <= |records|
    && p + |LogFrom(frame, p, records[..k])| <= cut
    && (k < |records| ==> cut < p + |LogFrom(frame, p, records[..k + 1])|)
  }

  lemma OneRecord(frame: Framing, p: nat, record: seq<byte>)
    ensures LogFrom(frame, p, [record]) == frame(p, record)
  {
    assert LogFrom(frame, p + |frame(p, record)|, []) == [];
  }

  lemma {:induction false} CutIsInside(frame: Framing, p: nat, records: seq<seq<byte>>, cut: nat, k: nat)
    requires CutsAfter(frame, p, records, cut, k)
    ensures Inside(frame, p, records, cut) == k
    decreases |records|
  {
    if records != [] {
      if k == 0 {
        assert records[..k + 1] == [records[0]];
        OneRecord(frame, p, records[0]);
      } else {
        assert records[..k][1..] == records[1..][..k - 1];
        if k < |records| {
          assert records[..k + 1][1..] == records[1..][..k];
        }
        CutIsInside(frame, p + |frame(p, records[0])|, records[1..], cut, k - 1);
      }
    }
  }

  /** Reading any byte prefix of a log returns exactly the records that lie wholly inside it, and
      reports no corruption. */
  lemma TornLogReads(crc: Checksum, records: seq<seq<byte>>, cut: nat, k: nat)
    requires cut <= |Log(crc, records)| && CutsAfter(Framer(crc), 0, records, cut, k)
    ensures Contents(crc, Log(crc, records)[..cut]) == (records[..k], 0)
  {
    var file := Log(crc, records)[..cut];
    ReaderAdvances(crc, file);
    FilesReadFragments(crc, file);
    FilesReadFrames(Reader(crc, file), crc, file);
    assert Reader(crc, file)(|file|) == Eof;
    PrefixReads(Reader(crc, file), Framer(crc), file, 0, records);
    CutIsInside(Framer(crc), 0, records, cut, k);
  }

  /** Every cut falls after some number of records. */
  lemma {:induction false} EveryCutIsAfterSome(frame: Framing, p: nat, records: seq<seq<byte>>, cut: nat)
    requires p <= cut
    ensures CutsAfter(frame, p, records, cut, Inside(frame, p, records, cut))
    decreases |records|
  {
    if records != [] {
      OneRecord(frame, p, records[0]);
      assert records[..1] == [records[0]];
      var end := p + |frame(p, records[0])|;
      if end <= cut {
        var i := Inside(frame, end, records[1..], cut);
        EveryCutIsAfterSome(frame, end, records[1..], cut);
        assert records[..i + 1][1..] == records[1..][..i];
        if i + 1 < |records| {
          assert records[..i + 2][1..] == records[1..][..i + 1];
        }
      }
    }
  }

  /** Reading a whole log gives its records back. */
  lemma LogRoundTrip(crc: Checksum, records: seq<seq<byte>>)
    ensures Contents(crc, Log(crc, records)) == (records, 0)
  {
    var n, log := |records|, Log(crc, records);
    assert records[..n] == records && log[..|log|] == log;
    TornLogReads(crc, records, |log|, n);
  }

  /** Adding a record appends its frame. */
  lemma LogAppends(frame: Framing, records: seq<seq<byte>>, record: seq<byte>)
    ensures LogFrom(frame, 0, records + [record])
         == LogFrom(frame, 0, records) + frame(|LogFrom(frame, 0, records)|, record)
  {
    var n := |records|;
    assert (records + [record])[..n] == records && (records + [record])[n..] == [record];
    LogSplits(frame, 0, records + [record], n);
    OneRecord(frame, |LogFrom(frame, 0, records)|, record);
  }

  /** A writer at the very end of a block goes on as at the start of one. */
  lemma FrameAtBlockEnd(crc: Checksum, data: seq<byte>, begin: bool)
    ensures Frame(crc, BLOCK_SIZE, data, begin) == Frame(crc, 0, data, begin)
  {
  }
}
