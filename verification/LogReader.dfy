/** Reading records back from a log file, from its start (db/log_reader.cc). */
module LogReader {
  import opened Wrappers
  import opened Bytes
  import opened LogFormat

  class Reader {
    const crc: Checksum
    const file: seq<byte>
    var buffer: seq<byte>
    var eof: bool
    var endOfBuffer: nat
    var reports: nat

    /** The position up to which the file has been consumed. */
    ghost var position: nat

    /** The buffer holds the rest of one block of the file, from this position on. */
    ghost predicate Valid()
      reads this
    {
      && position + |buffer| == endOfBuffer <= |file|
      && buffer == file[position..endOfBuffer]
      && (if eof then endOfBuffer == |file| < BlockEnd(position)
          else Offset(endOfBuffer) == 0 && (buffer != [] ==> endOfBuffer == BlockEnd(position)))
    }

    constructor (crc: Checksum, file: seq<byte>)
      ensures Valid() && this.crc == crc && this.file == file && position == 0 && reports == 0
    {
      this.crc := crc;
      this.file := file;
      buffer := [];
      eof := false;
      endOfBuffer, position := 0, 0;
      reports := 0;
    }

    method Report()
      modifies this`reports
      ensures reports == old(reports) + 1
    {
      reports := reports + 1;
    }

    /** Reads blocks until a header is buffered; false at the end of the file. */
    method FillBuffer() returns (ok: bool)
      requires Valid()
      modifies this`buffer, this`eof, this`endOfBuffer, this`position
      ensures Valid()
      ensures ok ==> |buffer| >= HEADER_SIZE
                     && ReadPhysical(crc, file, old(position)) == Parse(crc, buffer, position, eof)
      ensures !ok ==> ReadPhysical(crc, file, old(position)) == Eof && position == |file|
    {
      ghost var start := position;
      while |buffer| < HEADER_SIZE
        invariant Valid()
        invariant ReadPhysical(crc, file, position) == ReadPhysical(crc, file, start)
        decreases !eof, |file| - endOfBuffer
      {
        if eof {
          RemovePrefix(|buffer|);
          return false;
        }
        ReadBlock();
      }
      return true;
    }

    /** Reads one block. */
    method ReadBlock()
      requires Valid() && !eof && |buffer| < HEADER_SIZE
      modifies this`buffer, this`eof, this`endOfBuffer, this`position
      ensures Valid() && position == old(endOfBuffer)
      ensures eof || endOfBuffer > old(endOfBuffer)
      ensures ReadPhysical(crc, file, position) == ReadPhysical(crc, file, old(position))
    {
      var n := Min(BLOCK_SIZE, |file| - endOfBuffer);
      position := endOfBuffer;
      buffer := file[endOfBuffer..endOfBuffer + n];
      endOfBuffer := endOfBuffer + n;
      if n < BLOCK_SIZE {
        eof := true;
      }
    }

    method ReadPhysicalRecord() returns (r: Fragment)
      requires Valid()
      modifies this
      ensures Valid()
      ensures r == ReadPhysical(crc, file, old(position))
      ensures position == if r.Eof? then |file| else r.next
      ensures reports == old(reports) + Count(r.Bad? && r.reported)
    {
      var ok := FillBuffer();
      if ok {
        r := ParseFragment();
      } else {
        r := Eof;
      }
    }

    /** Consumes some of the buffered bytes. */
    method RemovePrefix(n: nat)
      requires Valid() && n <= |buffer|
      modifies this`buffer, this`position
      ensures Valid() && position == old(position) + n && buffer == old(buffer)[n..]
    {
      position := position + n;
      buffer := buffer[n..];
    }

    /** Takes one fragment from the buffer. */
    method ParseFragment() returns (r: Fragment)
      requires Valid() && |buffer| >= HEADER_SIZE
      modifies this`buffer, this`reports, this`position
      ensures Valid()
      ensures r == Parse(crc, old(buffer), old(position), eof)
      ensures position == if r.Eof? then |file| else r.next
      ensures reports == old(reports) + Count(r.Bad? && r.reported)
    {
      var length := buffer[4] as int + 256 * buffer[5] as int;
      if HEADER_SIZE + length > |buffer| {
        RemovePrefix(|buffer|);
        if !eof {
          Report();
          return Bad(true, endOfBuffer);
        }
        return Eof;
      }
      if buffer[6] == 0 && length == 0 {
        RemovePrefix(|buffer|);
        return Bad(false, endOfBuffer);
      }
      if Unmask(DecodeFixed32(buffer)) != crc(buffer[6..HEADER_SIZE + length]) {
        RemovePrefix(|buffer|);
        Report();
        return Bad(true, endOfBuffer);
      }
      r := Read(buffer[6], buffer[HEADER_SIZE..HEADER_SIZE + length], endOfBuffer - |buffer| + HEADER_SIZE + length);
      RemovePrefix(HEADER_SIZE + length);
    }

    /** Adds one fragment to what has been collected of a record. */
    method Collect(inFragmentedRecord: bool, scratch: seq<byte>, code: byte, payload: seq<byte>) returns (a: Assembly)
      modifies this`reports
      ensures var (after, reported) := Assemble(Open(inFragmentedRecord, scratch), code, payload);
              a == after && reports == old(reports) + Count(reported)
    {
      if code == TypeCode(Full) {
        if inFragmentedRecord && scratch != [] {
          Report();
        }
        return Complete(payload);
      } else if code == TypeCode(First) {
        if inFragmentedRecord && scratch != [] {
          Report();
        }
        return Open(true, payload);
      } else if code == TypeCode(Middle) {
        if !inFragmentedRecord {
          Report();
          return Open(inFragmentedRecord, scratch);
        }
        return Open(true, scratch + payload);
      } else if code == TypeCode(Last) {
        if !inFragmentedRecord {
          Report();
          return Open(inFragmentedRecord, scratch);
        }
        return Complete(scratch + payload);
      } else {
        Report();
        return START;
      }
    }

    /** `read` is what this reader does. */
    ghost predicate Performs(read: nat -> Fragment)
      reads this
    {
      forall p: nat :: p <= |file| ==> read(p) == ReadPhysical(crc, file, p)
    }

    /** Reads one physical record and adds it to what has been collected of a logical one. */
    method ReadFragment(ghost read: nat -> Fragment, inFragmentedRecord: bool, scratch: seq<byte>)
      returns (a: Option<Assembly>)
      requires Valid() && Performs(read) && Advancing(read, |file|)
      modifies this
      ensures Valid()
      ensures a == None ==> read(old(position)).Eof? && position == |file| && reports == old(reports)
      ensures a.Some? ==> !read(old(position)).Eof? && position == read(old(position)).next
      ensures a.Some? ==>
                (a.value, reports) == Collected(read(old(position)), Open(inFragmentedRecord, scratch), old(reports))
    {
      var fragment := ReadPhysicalRecord();
      assert fragment == read(old(position));
      match fragment
      case Eof =>
        a := None;
      case Bad(_, _) =>
        if inFragmentedRecord {
          Report();
          a := Some(START);
        } else {
          a := Some(Open(inFragmentedRecord, scratch));
        }
      case Read(code, payload, _) =>
        var collected := Collect(inFragmentedRecord, scratch, code, payload);
        a := Some(collected);
    }

    /** Reads one logical record. */
    method ReadRecord(ghost read: nat -> Fragment) returns (record: Option<seq<byte>>, ghost result: Result)
      requires Valid() && Performs(read) && Advancing(read, |file|)
      modifies this
      ensures Valid()
      ensures result == LogFormat.ReadRecord(read, |file|, old(position), START, old(reports))
      ensures result.reports == reports
      ensures result.Record? ==> record == Some(result.record) && position == result.next
      ensures result.End? ==> record == None && position == |file|
    {
      var scratch: seq<byte>, inFragmentedRecord := [], false;
      result := LogFormat.ReadRecord(read, |file|, position, START, reports);
      while true
        invariant Valid()
        invariant LogFormat.ReadRecord(read, |file|, position, Open(inFragmentedRecord, scratch), reports) == result
        decreases |file| - position
      {
        OneRead(read, |file|, position, Open(inFragmentedRecord, scratch), reports);
        var a := ReadFragment(read, inFragmentedRecord, scratch);
        if a == None {
          return None, result;
        }
        if a.value.Complete? {
          return Some(a.value.record), result;
        }
        inFragmentedRecord, scratch := a.value.inFragmented, a.value.scratch;
      }
    }
  }

  /** What one physical read adds to a logical one. */
  lemma OneRead(read: nat -> Fragment, limit: nat, p: nat, a: Assembly, reports: nat)
    requires p <= limit && a.Open? && Advancing(read, limit)
    ensures LogFormat.ReadRecord(read, limit, p, a, reports)
         == if read(p).Eof? then End(reports) else
              var (after, n) := Collected(read(p), a, reports);
              if after.Complete? then Record(after.record, read(p).next, n)
              else LogFormat.ReadRecord(read, limit, read(p).next, after, n)
  {
  }

  /** Reports made earlier are carried along. */
  ghost function Later(r: Result, earlier: nat): Result {
    match r
    case End(reports) => End(earlier + reports)
    case Record(record, next, reports) => Record(record, next, earlier + reports)
  }

  lemma {:induction false} ReportsAdd(read: nat -> Fragment, limit: nat, p: nat, a: Assembly, n: nat, earlier: nat)
    requires p <= limit && a.Open? && Advancing(read, limit)
    ensures LogFormat.ReadRecord(read, limit, p, a, earlier + n)
         == Later(LogFormat.ReadRecord(read, limit, p, a, n), earlier)
    decreases limit - p
  {
    OneRead(read, limit, p, a, n);
    OneRead(read, limit, p, a, earlier + n);
    if !read(p).Eof? {
      var (after, m) := Collected(read(p), a, n);
      if after.Open? {
        ReportsAdd(read, limit, read(p).next, after, m, earlier);
      }
    }
  }

  lemma ReportsCarry(read: nat -> Fragment, limit: nat, p: nat, earlier: nat, one: Result, result: Result)
    requires p <= limit && Advancing(read, limit)
    requires one == LogFormat.ReadRecord(read, limit, p, START, 0)
    requires result == LogFormat.ReadRecord(read, limit, p, START, earlier)
    ensures result == Later(one, earlier)
  {
    ReportsAdd(read, limit, p, START, 0, earlier);
  }

  /** Reads a log from its start to its end, as recovery does. */
  method ReadLog(crc: Checksum, file: seq<byte>) returns (records: seq<seq<byte>>, reports: nat)
    ensures (records, reports) == Contents(crc, file)
  {
    ghost var read := LogFormat.Reader(crc, file);
    ReaderAdvances(crc, file);
    var reader := new Reader(crc, file);
    records := ReadRest(reader, read);
    reports := reader.reports;
  }

  /** What one logical read adds to those that follow. */
  ghost predicate StartsWith(all: (seq<seq<byte>>, nat), read: nat -> Fragment, limit: nat, one: Result)
    requires Advancing(read, limit)
  {
    match one
    case End(reports) => all == ([], reports)
    case Record(record, next, reports) =>
      next <= limit && all.0 == [record] + ReadAll(read, limit, next).0
        && all.1 == reports + ReadAll(read, limit, next).1
  }

  lemma OneRecordRead(read: nat -> Fragment, limit: nat, p: nat, one: Result)
    requires p <= limit && Advancing(read, limit) && one == LogFormat.ReadRecord(read, limit, p, START, 0)
    ensures StartsWith(ReadAll(read, limit, p), read, limit, one)
  {
  }

  /** `one` is the next record and the reports on the way to it. */
  ghost predicate IsNext(one: Result, reader: Reader, read: nat -> Fragment)
    reads reader
  {
    reader.Valid() && reader.Performs(read) && Advancing(read, |reader.file|)
    && one == LogFormat.ReadRecord(read, |reader.file|, reader.position, START, 0)
  }

  /** Reads one record, and says what it is apart from earlier reports. */
  method ReadOne(reader: Reader, ghost read: nat -> Fragment, ghost one: Result) returns (record: Option<seq<byte>>)
    requires IsNext(one, reader, read)
    modifies reader
    ensures reader.Valid()
    ensures reader.reports == old(reader.reports) + one.reports
    ensures one.Record? ==> record == Some(one.record) && reader.position == one.next
    ensures one.End? ==> record == None
  {
    ghost var p, before := reader.position, reader.reports;
    ghost var result;
    record, result := reader.ReadRecord(read);
    ReportsCarry(read, |reader.file|, p, before, one, result);
  }

  lemma Associates(before: seq<seq<byte>>, record: seq<byte>, after: seq<seq<byte>>)
    ensures before + ([record] + after) == before + [record] + after
  {
  }

  method ReadRest(reader: Reader, ghost read: nat -> Fragment) returns (records: seq<seq<byte>>)
    requires reader.Valid() && reader.Performs(read) && Advancing(read, |reader.file|)
    modifies reader
    ensures records == ReadAll(read, |reader.file|, old(reader.position)).0
    ensures reader.reports == old(reader.reports) + ReadAll(read, |reader.file|, old(reader.position)).1
  {
    records := [];
    ghost var p, limit := reader.position, |reader.file|;
    ghost var all, rest := ReadAll(read, limit, p), ReadAll(read, limit, p);
    var more := true;
    while more
      invariant reader.Valid() && reader.Performs(read) && p <= limit
      invariant more ==> p == reader.position && rest == ReadAll(read, limit, p)
      invariant !more ==> rest == ([], 0)
      invariant all.0 == records + rest.0
      invariant old(reader.reports) + all.1 == reader.reports + rest.1
      decreases more, limit - p
    {
      ghost var one := LogFormat.ReadRecord(read, limit, p, START, 0);
      OneRecordRead(read, limit, p, one);
      var record := ReadOne(reader, read, one);
      if record == None {
        more := false;
        rest := ([], 0);
      } else {
        p := one.next;
        ghost var after := ReadAll(read, limit, p);
        Associates(records, one.record, after.0);
        records := records + [record.value];
        rest := after;
      }
    }
  }
}
