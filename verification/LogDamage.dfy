/** Reading files that no writer has left: what is delivered of them, and what damage costs. */
module LogDamage {
  import opened Bytes
  import opened LogFormat

  // ---------------------------------------------------------------- one fragment

  /** A fragment of any type, as bytes. */
  function Framed(crc: Checksum, code: byte, payload: seq<byte>): (r: seq<byte>)
    requires |payload| <= 0xffff
    ensures |r| == 7 + |payload|
  {
    EncodeFixed32(Mask(crc([code] + payload))) + [(|payload| % 256) as byte, (|payload| / 256) as byte, code] + payload
  }

  /** The types are numbered from 1 on. */
  lemma PhysicalIsFramed(crc: Checksum, t: RecordType, payload: seq<byte>)
    requires |payload| <= 0xffff && !t.Zero?
    ensures var code := if t == Full then 1 else if t == First then 2 else if t == Middle then 3 else 4;
            Physical(crc, t, payload) == Framed(crc, code, payload)
  {
  }

  /** Blocks have 32 KB, seven bytes of them for a header: what fits takes one fragment. */
  lemma SmallFrame(crc: Checksum, data: seq<byte>)
    requires |data| <= 32761
    ensures Frame(crc, 0, data, true) == Framed(crc, 1, data)
  {
    assert FragmentLength(0, |data|) == |data| && Trailer(0) == 0 && FragmentType(true, true) == Full;
    assert data[..|data|] == data;
    NoTrailer(Physical(crc, Full, data));
    PhysicalIsFramed(crc, Full, data);
  }

  /** What does not fit goes on in the next block. */
  lemma LargeFrame(crc: Checksum, first: seq<byte>, second: seq<byte>)
    requires |first| == 32761 && 0 < |second| <= 32761
    ensures Frame(crc, 0, first + second, true) == Framed(crc, 2, first) + Framed(crc, 4, second)
  {
    var data := first + second;
    assert data[..32761] == first && data[32761..] == second && second[..|second|] == second;
    NoTrailer(Physical(crc, First, first));
    NoTrailer(Physical(crc, Last, second));
    assert Frame(crc, 32768, second, false) == Physical(crc, Last, second);
  }

  lemma NoTrailer(fragment: seq<byte>)
    ensures Zeros(0) + fragment == fragment
  {
  }

  /** Up to six bytes at the end of a block are left zero. */
  lemma TrailerSizes(crc: Checksum, off: nat, data: seq<byte>)
    requires 32761 < off <= 32768
    ensures Frame(crc, off, data, true) == Zeros(32768 - off) + Frame(crc, 0, data, true)
  {
    var n := FragmentLength(0, |data|);
    var fragment := Physical(crc, FragmentType(true, n == |data|), data[..n]);
    assert Zeros(0) + fragment == fragment;
  }

  lemma MaskUnmask(masked: uint32)
    ensures Mask(Unmask(masked)) == masked
  {
    var rot := (masked - MASK_DELTA) % TWO_32;
    var crc := Unmask(masked);
    assert crc / 0x8000 == rot % 0x2_0000 && crc % 0x8000 == rot / 0x2_0000;
  }

  lemma EncodeDecoded(s: seq<byte>)
    requires |s| >= 4
    ensures EncodeFixed32(DecodeFixed32(s)) == s[..4]
  {
    var v := DecodeFixed32(s);
    assert v % 256 == s[0] as int;
    assert v / 256 == s[1] as int + 256 * (s[2] as int + 256 * s[3] as int);
    assert v / 256 / 256 == s[2] as int + 256 * s[3] as int;
  }

  /** Where the buffer begins with this fragment, whole. */
  ghost predicate Begins(crc: Checksum, buffer: seq<byte>, code: byte, payload: seq<byte>) {
    && |payload| <= 0xffff && 7 + |payload| <= |buffer|
    && buffer[..7 + |payload|] == Framed(crc, code, payload)
  }

  lemma ParseIsSound(crc: Checksum, buffer: seq<byte>, p: nat, eof: bool)
    requires |buffer| >= HEADER_SIZE && Parse(crc, buffer, p, eof).Read?
    ensures var r := Parse(crc, buffer, p, eof);
            && Begins(crc, buffer, r.code, r.payload) && r.next == p + 7 + |r.payload|
            && !(r.code == 0 && r.payload == [])
  {
    var length := buffer[4] as int + 256 * buffer[5] as int;
    assert buffer[6..7 + length] == [buffer[6]] + buffer[7..7 + length];
    HeaderIsFramed(crc, buffer, length);
  }

  /** A header with this length and the right checksum. */
  lemma HeaderIsFramed(crc: Checksum, buffer: seq<byte>, length: nat)
    requires length <= 0xffff && 7 + length <= |buffer|
    requires length == buffer[4] as int + 256 * buffer[5] as int
    requires Unmask(DecodeFixed32(buffer)) == crc([buffer[6]] + buffer[7..7 + length])
    ensures Begins(crc, buffer, buffer[6], buffer[7..7 + length])
  {
    var payload := buffer[7..7 + length];
    MaskUnmask(DecodeFixed32(buffer));
    EncodeDecoded(buffer);
    assert (length % 256) as byte == buffer[4] && (length / 256) as byte == buffer[5];
    assert buffer[..7 + length] == buffer[..4] + [buffer[4], buffer[5], buffer[6]] + payload;
  }

  lemma ParseIsComplete(crc: Checksum, buffer: seq<byte>, p: nat, eof: bool, code: byte, payload: seq<byte>)
    requires |buffer| >= HEADER_SIZE && Begins(crc, buffer, code, payload) && !(code == 0 && payload == [])
    ensures Parse(crc, buffer, p, eof) == Read(code, payload, p + 7 + |payload|)
  {
    var framed := Framed(crc, code, payload);
    var masked := Mask(crc([code] + payload));
    var tail := [(|payload| % 256) as byte, (|payload| / 256) as byte, code] + payload;
    assert framed == EncodeFixed32(masked) + tail;
    assert forall i :: 0 <= i < 7 + |payload| ==> buffer[i] == framed[i];
    assert buffer[4] == tail[0] && buffer[5] == tail[1] && buffer[6] == tail[2];
    assert buffer[7..7 + |payload|] == payload;
    assert buffer[6..7 + |payload|] == [code] + payload;
    Fixed32RoundTrip(masked, tail);
    UnmaskMask(crc([code] + payload));
  }

  /** Of whatever bytes, a fragment is taken if and only if they begin with it, its length and checksum
      included; an empty fragment of type 0 is none. */
  lemma TakenExactlyWhen(crc: Checksum, buffer: seq<byte>, p: nat, eof: bool, code: byte, payload: seq<byte>)
    requires |buffer| >= HEADER_SIZE
    ensures Parse(crc, buffer, p, eof) == Read(code, payload, p + 7 + |payload|)
       <==> Begins(crc, buffer, code, payload) && !(code == 0 && payload == [])
  {
    if Begins(crc, buffer, code, payload) && !(code == 0 && payload == []) {
      ParseIsComplete(crc, buffer, p, eof, code, payload);
    }
    if Parse(crc, buffer, p, eof).Read? {
      ParseIsSound(crc, buffer, p, eof);
    }
  }

  /** Otherwise the rest of the block is given up, with a report unless its header is zero where type and
      length stand; but a fragment that reaches beyond the end of the file is the end. */
  lemma GivenUpExactlyWhen(crc: Checksum, buffer: seq<byte>, p: nat, eof: bool)
    requires |buffer| >= HEADER_SIZE
    requires forall code, payload :: Begins(crc, buffer, code, payload) ==> code == 0 && payload == []
    ensures var beyond := 7 + buffer[4] as int + 256 * buffer[5] as int > |buffer|;
            var zero := buffer[4] == 0 && buffer[5] == 0 && buffer[6] == 0;
            Parse(crc, buffer, p, eof) == if beyond && eof then Eof else Bad(!zero, p + |buffer|)
  {
    if Parse(crc, buffer, p, eof).Read? {
      ParseIsSound(crc, buffer, p, eof);
    }
  }

  /** What a read gives stands in the file, just before the position it leads to. */
  lemma ReadStandsInFile(crc: Checksum, file: seq<byte>, p: nat)
    requires p <= |file| && ReadPhysical(crc, file, p).Read?
    ensures var r := ReadPhysical(crc, file, p);
            && |r.payload| <= 0xffff && 7 + |r.payload| <= r.next <= |file|
            && file[r.next - 7 - |r.payload|..r.next] == Framed(crc, r.code, r.payload)
  {
    var start := if BlockEnd(p) - p < HEADER_SIZE && BlockEnd(p) <= |file| then BlockEnd(p) else p;
    var end := Min(BlockEnd(start), |file|);
    ParseIsSound(crc, file[start..end], start, |file| < BlockEnd(start));
    BeginsInFile(crc, file, start, end, ReadPhysical(crc, file, p).code, ReadPhysical(crc, file, p).payload);
  }

  lemma BeginsInFile(crc: Checksum, file: seq<byte>, start: nat, end: nat, code: byte, payload: seq<byte>)
    requires start <= end <= |file| && Begins(crc, file[start..end], code, payload)
    ensures start + 7 + |payload| <= end && file[start..start + 7 + |payload|] == Framed(crc, code, payload)
  {
    assert file[start..end][..7 + |payload|] == file[start..start + 7 + |payload|];
  }

  // ---------------------------------------------------- what is delivered at all

  /** Reads one after the other, up to position `p`, gave the first `n` fragments of a record: one that
      starts it and others that go on. */
  ghost predicate Started(read: nat -> Fragment, scratch: seq<byte>, p: nat, n: nat)
    decreases n
  {
    if n == 0 then false
    else if n == 1 then exists from: nat :: read(from) == Read(2, scratch, p)
    else exists from: nat, front: seq<byte>, payload: seq<byte> ::
           Started(read, front, from, n - 1) && read(from) == Read(3, payload, p) && scratch == front + payload
  }

  /** A record in one fragment, or started, continued and ended without a gap. */
  ghost predicate Delivered(read: nat -> Fragment, record: seq<byte>, next: nat) {
    || (exists from: nat :: read(from) == Read(1, record, next))
    || (exists from: nat, front: seq<byte>, payload: seq<byte>, n: nat ::
          Started(read, front, from, n) && read(from) == Read(4, payload, next) && record == front + payload)
  }

  /** What is collected is the start of a record. */
  ghost predicate Collecting(read: nat -> Fragment, p: nat, a: Assembly) {
    a.Open? && (a.inFragmented ==> exists n: nat :: Started(read, a.scratch, p, n))
  }

  lemma CollectedIsDelivered(read: nat -> Fragment, p: nat, a: Assembly, reports: nat)
    requires Collecting(read, p, a) && !read(p).Eof?
    ensures var after := Collected(read(p), a, reports).0;
            if after.Complete? then Delivered(read, after.record, read(p).next)
            else Collecting(read, read(p).next, after)
  {
    var f := read(p);
    if f.Read? && f.code == 2 {
      assert Started(read, f.payload, f.next, 1);
    } else if f.Read? && (f.code == 3 || f.code == 4) && a.inFragmented {
      var n: nat :| Started(read, a.scratch, p, n);
      if f.code == 3 {
        assert Started(read, a.scratch + f.payload, f.next, n + 1);
      }
    }
  }

  /** Whatever the file holds, a record that is delivered was framed as one: its fragments stand there one
      behind the other, from a first to a last, each with the right checksum (TakenExactlyWhen). */
  lemma {:induction false} DeliveredIsFramed(read: nat -> Fragment, limit: nat, p: nat, a: Assembly, reports: nat)
    requires p <= limit && Advancing(read, limit) && Collecting(read, p, a)
    ensures var r := ReadRecord(read, limit, p, a, reports);
            r.Record? ==> Delivered(read, r.record, r.next)
    decreases limit - p
  {
    if !read(p).Eof? {
      CollectedIsDelivered(read, p, a, reports);
      var (after, n) := Collected(read(p), a, reports);
      if after.Open? {
        DeliveredIsFramed(read, limit, read(p).next, after, n);
      }
    }
  }

  // ------------------------------------------------------------ what damage costs

  /** The number of fragments of a record, or of what is left of it, written from offset `off`. */
  function Fragments(off: nat, left: nat): (n: nat)
    requires off <= BLOCK_SIZE
    decreases left, if BLOCK_SIZE - off == HEADER_SIZE then 1 else 0
  {
    var n := FragmentLength(off, left);
    if n == left then 1 else 1 + Fragments(FragmentStart(off) + HEADER_SIZE + n, left - n)
  }

  /** A fragment that goes on with nothing is passed over. */
  lemma StraySkipped(read: nat -> Fragment, limit: nat, p: nat, last: bool, payload: seq<byte>, next: nat, reports: nat)
    requires p <= limit && next <= limit && Advancing(read, limit)
    requires Finds(read, limit, p, FragmentType(false, last), payload, next)
    ensures ReadRecord(read, limit, p, START, reports) == ReadRecord(read, limit, next, START, reports + 1)
  {
  }

  /** The rest of a record whose start was lost is passed over, with a report for every fragment. */
  lemma {:induction false} RestIsSkipped(read: nat -> Fragment, limit: nat, p: nat, off: nat, data: seq<byte>,
                                         end: nat, reports: nat, total: nat)
    requires off <= BLOCK_SIZE && Advancing(read, limit) && FindsFragments(read, limit, p, off, data, false)
    requires FrameEnd(p, off, |data|) == end <= limit && total == reports + Fragments(off, |data|)
    ensures p <= limit
    ensures ReadRecord(read, limit, p, START, reports) == ReadRecord(read, limit, end, START, total)
    decreases |data|, if BLOCK_SIZE - off == HEADER_SIZE then 1 else 0
  {
    var n := FragmentLength(off, |data|);
    var next := p + Trailer(off) + HEADER_SIZE + n;
    if n < |data| {
      StraySkipped(read, limit, p, false, data[..n], next, reports);
      RestIsSkipped(read, limit, next, FragmentStart(off) + HEADER_SIZE + n, data[n..], end, reports + 1, total);
    } else {
      StraySkipped(read, limit, p, true, data[..n], next, reports);
    }
  }

  /** Reports are only added up. */
  lemma {:induction false} ReportsAdd(read: nat -> Fragment, limit: nat, p: nat, a: Assembly, reports: nat)
    requires p <= limit && a.Open? && Advancing(read, limit)
    ensures ReadRecord(read, limit, p, a, reports)
         == match ReadRecord(read, limit, p, a, 0)
            case End(n) => End(n + reports)
            case Record(record, next, n) => Record(record, next, n + reports)
    decreases limit - p
  {
    if !read(p).Eof? {
      var (after, n) := Collected(read(p), a, reports);
      var (after0, n0) := Collected(read(p), a, 0);
      assert after == after0 && n == n0 + reports;
      if after.Open? {
        ReportsAdd(read, limit, read(p).next, after, n);
        ReportsAdd(read, limit, read(p).next, after, n0);
      }
    }
  }

  function RestReports(left: bool, data: seq<byte>): nat {
    if left then Fragments(0, |data|) else 0
  }

  /** Where the records start again: behind the rest of a record, if `left` says that there is one. */
  function RestEnd(p: nat, left: bool, data: seq<byte>): nat {
    if left then FrameEnd(p, 0, |data|) else p
  }

  /** From `p` on the file holds these records to its end. */
  ghost predicate EndsWith(frame: Framing, file: seq<byte>, p: nat, records: seq<seq<byte>>) {
    |file| == p + |LogFrom(frame, p, records)| && At(file, p, LogFrom(frame, p, records))
  }

  /** Where a block is given up from position `p` on, and the next one goes on with the rest of a record, if
      at all, all the records after that are read.  It costs a report for the block, and one for every
      fragment of the rest. */
  lemma DamageIsContained(crc: Checksum, file: seq<byte>, p: nat, reported: bool, next: nat,
                          left: bool, data: seq<byte>, records: seq<seq<byte>>)
    requires p <= |file| && ReadPhysical(crc, file, p) == Bad(reported, next) && StandsAt(next, 0)
    requires left ==> At(file, next, Frame(crc, 0, data, false))
    requires EndsWith(Framer(crc), file, RestEnd(next, left, data), records)
    ensures Advancing(Reader(crc, file), |file|)
    ensures ReadAll(Reader(crc, file), |file|, p) == (records, Count(reported) + RestReports(left, data))
  {
    ReaderAdvances(crc, file);
    FilesReadFragments(crc, file);
    FilesReadFrames(Reader(crc, file), crc, file);
    if left { FrameIsFound(Reader(crc, file), crc, file, next, 0, data, false); }
    assert Reader(crc, file)(|file|) == Eof;
    BlockIsLost(Reader(crc, file), Framer(crc), file, p, reported, next, left, data, records);
  }

  lemma BlockIsLost(read: nat -> Fragment, frame: Framing, file: seq<byte>, p: nat, reported: bool,
                    next: nat, left: bool, data: seq<byte>, records: seq<seq<byte>>)
    requires Advancing(read, |file|) && ReadsFrames(read, frame, file) && read(|file|) == Eof
    requires p <= |file| && read(p) == Bad(reported, next)
    requires left ==> FindsFragments(read, |file|, next, 0, data, false)
    requires EndsWith(frame, file, RestEnd(next, left, data), records)
    ensures ReadAll(read, |file|, p) == (records, Count(reported) + RestReports(left, data))
  {
    RecordsRead(read, frame, file, RestEnd(next, left, data), records);
    FoundIsSkipped(read, |file|, next, left, data, Count(reported));
    ReadOver(read, |file|, p, reported, next, RestEnd(next, left, data), Count(reported) + RestReports(left, data),
             records);
  }

  lemma RecordsRead(read: nat -> Fragment, frame: Framing, file: seq<byte>, p: nat, records: seq<seq<byte>>)
    requires Advancing(read, |file|) && ReadsFrames(read, frame, file) && read(|file|) == Eof
    requires EndsWith(frame, file, p, records)
    ensures ReadAll(read, |file|, p) == (records, 0)
  {
    AllAreInside(frame, p, records);
    PrefixReads(read, frame, file, p, records);
    assert records[..|records|] == records;
  }

  lemma FoundIsSkipped(read: nat -> Fragment, limit: nat, p: nat, left: bool, data: seq<byte>, reports: nat)
    requires p <= limit && Advancing(read, limit) && (left ==> FindsFragments(read, limit, p, 0, data, false))
    requires RestEnd(p, left, data) <= limit
    ensures ReadRecord(read, limit, p, START, reports)
         == ReadRecord(read, limit, RestEnd(p, left, data), START, reports + RestReports(left, data))
  {
    if left {
      RestIsSkipped(read, limit, p, 0, data, RestEnd(p, left, data), reports, reports + RestReports(left, data));
    }
  }

  lemma ReadOver(read: nat -> Fragment, limit: nat, p: nat, reported: bool, next: nat, start: nat, reports: nat,
                 records: seq<seq<byte>>)
    requires p <= limit && start <= limit && Advancing(read, limit) && read(p) == Bad(reported, next)
    requires ReadRecord(read, limit, next, START, Count(reported)) == ReadRecord(read, limit, start, START, reports)
    requires ReadAll(read, limit, start) == (records, 0)
    ensures ReadAll(read, limit, p) == (records, reports)
  {
    BadBlock(read, limit, p, reported, next);
    ReadsOn(read, limit, p, start, reports, records);
  }

  lemma BadBlock(read: nat -> Fragment, limit: nat, p: nat, reported: bool, next: nat)
    requires p <= limit && Advancing(read, limit) && read(p) == Bad(reported, next)
    ensures ReadRecord(read, limit, p, START, 0) == ReadRecord(read, limit, next, START, Count(reported))
  {
  }

  lemma ReadsOn(read: nat -> Fragment, limit: nat, p: nat, start: nat, reports: nat, records: seq<seq<byte>>)
    requires p <= limit && start <= limit && Advancing(read, limit)
    requires ReadRecord(read, limit, p, START, 0) == ReadRecord(read, limit, start, START, reports)
    requires ReadAll(read, limit, start) == (records, 0)
    ensures ReadAll(read, limit, p) == (records, reports)
  {
    ReportsAdd(read, limit, start, START, reports);
  }

  lemma {:induction false} AllAreInside(frame: Framing, p: nat, records: seq<seq<byte>>)
    ensures Inside(frame, p, records, p + |LogFrom(frame, p, records)|) == |records|
    decreases |records|
  {
    if records != [] {
      AllAreInside(frame, p + |frame(p, records[0])|, records[1..]);
    }
  }

  /** A record in progress is lost with the block, with one more report. */
  lemma RecordInProgressIsLost(read: nat -> Fragment, limit: nat, p: nat, scratch: seq<byte>, reported: bool, next: nat)
    requires p <= limit && Advancing(read, limit) && read(p) == Bad(reported, next)
    ensures ReadRecord(read, limit, p, Open(true, scratch), 0)
         == ReadRecord(read, limit, next, START, Count(reported) + 1)
  {
  }

  /** A record in progress that is followed by the start of another is lost too, with a report unless nothing
      of it had been read. */
  lemma UnfinishedIsLost(read: nat -> Fragment, limit: nat, p: nat, scratch: seq<byte>, payload: seq<byte>, next: nat)
    requires p <= limit && Advancing(read, limit)
    ensures read(p) == Read(1, payload, next) ==>
              ReadRecord(read, limit, p, Open(true, scratch), 0)
              == Record(payload, next, if scratch == [] then 0 else 1)
    ensures read(p) == Read(2, payload, next) ==>
              ReadRecord(read, limit, p, Open(true, scratch), 0)
              == ReadRecord(read, limit, next, Open(true, payload), if scratch == [] then 0 else 1)
  {
  }

  /** A fragment of an unknown type is reported, and a record in progress is lost. */
  lemma UnknownTypeIsReported(read: nat -> Fragment, limit: nat, p: nat, a: Assembly, payload: seq<byte>,
                              code: byte, next: nat)
    requires p <= limit && Advancing(read, limit) && a.Open? && read(p) == Read(code, payload, next)
    requires code == 0 || code > 4
    ensures ReadRecord(read, limit, p, a, 0) == ReadRecord(read, limit, next, START, 1)
  {
  }
}
