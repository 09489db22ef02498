/** Adding records to a log file (db/log_writer.cc). */
module LogWriter {
  import opened Bytes
  import opened LogFormat

  class Writer {
    const crc: Checksum
    var dest: seq<byte>
    var blockOffset: nat

    ghost predicate Valid()
      reads this
    {
      StandsAt(|dest|, blockOffset)
    }

    constructor (crc: Checksum, dest: seq<byte>)
      ensures Valid() && this.crc == crc && this.dest == dest
    {
      this.crc := crc;
      this.dest := dest;
      blockOffset := |dest| % BLOCK_SIZE;
    }

    /** Appends one record; a log of some records becomes the log of these and the new one. */
    method AddRecord(record: seq<byte>)
      requires Valid()
      modifies this
      ensures Valid() && dest == old(dest) + Frame(crc, Offset(|old(dest)|), record, true)
      ensures forall records :: old(dest) == Log(crc, records) ==> dest == Log(crc, records + [record])
    {
      if blockOffset == BLOCK_SIZE {
        FrameAtBlockEnd(crc, record, true);
      }
      AddFragments(record);
      forall records | old(dest) == Log(crc, records) ensures dest == Log(crc, records + [record]) {
        LogAppends(Framer(crc), records, record);
      }
    }

    /** The loop of AddRecord: the record goes out from the offset where the writer stands. */
    method AddFragments(record: seq<byte>)
      requires Valid()
      modifies this
      ensures Valid() && dest == old(dest) + Frame(crc, old(blockOffset), record, true)
    {
      ghost var was, frame := dest, Frame(crc, blockOffset, record, true);
      var ptr, begin, end := record, true, false;
      while !end
        invariant Valid() && (end ==> dest == was + frame)
        invariant !end ==> dest + Frame(crc, blockOffset, ptr, begin) == was + frame
        decreases !end, |ptr|, if BLOCK_SIZE - blockOffset == HEADER_SIZE then 1 else 0
      {
        FrameFirst(crc, blockOffset, ptr, begin, dest);
        var n := AddFragment(ptr, begin);
        end := n == |ptr|;
        ptr := ptr[n..];
        begin := false;
      }
    }

    /** One turn of the loop. */
    method AddFragment(ptr: seq<byte>, begin: bool) returns (fragmentLength: nat)
      requires Valid()
      modifies this
      ensures Valid() && fragmentLength == FragmentLength(old(blockOffset), |ptr|) <= |ptr|
      ensures dest == old(dest) + Piece(crc, old(blockOffset), ptr, begin)
      ensures blockOffset == FragmentStart(old(blockOffset)) + HEADER_SIZE + fragmentLength
    {
      SwitchBlock();
      var left, avail := |ptr|, BLOCK_SIZE - blockOffset - HEADER_SIZE;
      fragmentLength := if left < avail then left else avail;
      var end := left == fragmentLength;
      EmitPhysicalRecord(FragmentType(begin, end), ptr[..fragmentLength]);
    }

    /** Fills what is left of a block that has no room for a header. */
    method SwitchBlock()
      requires Valid()
      modifies this
      ensures dest == old(dest) + Zeros(Trailer(old(blockOffset))) && blockOffset == FragmentStart(old(blockOffset))
      ensures Valid()
    {
      StandsAfter(|dest|, blockOffset, 0);
      var leftover := BLOCK_SIZE - blockOffset;
      if leftover < HEADER_SIZE {
        if leftover > 0 {
          dest := dest + Zeros(leftover);
        }
        blockOffset := 0;
      }
    }

    method EmitPhysicalRecord(t: RecordType, payload: seq<byte>)
      requires Valid() && blockOffset + HEADER_SIZE + |payload| <= BLOCK_SIZE
      modifies this
      ensures Valid() && dest == old(dest) + Physical(crc, t, payload)
      ensures blockOffset == old(blockOffset) + HEADER_SIZE + |payload|
    {
      StandsAfter(|dest|, blockOffset, HEADER_SIZE + |payload|);
      dest := dest + Physical(crc, t, payload);
      blockOffset := blockOffset + HEADER_SIZE + |payload|;
    }
  }

  /** The first fragment of a frame, with the zeros before it. */
  ghost function Piece(crc: Checksum, off: nat, data: seq<byte>, begin: bool): seq<byte>
    requires off <= BLOCK_SIZE
  {
    var n := FragmentLength(off, |data|);
    Zeros(Trailer(off)) + Physical(crc, FragmentType(begin, n == |data|), data[..n])
  }

  /** A frame after the bytes `start` is its first fragment, and the rest of it if there is more. */
  lemma FrameFirst(crc: Checksum, off: nat, data: seq<byte>, begin: bool, start: seq<byte>)
    requires off <= BLOCK_SIZE
    ensures var n := FragmentLength(off, |data|);
            start + Frame(crc, off, data, begin)
            == if n == |data| then start + Piece(crc, off, data, begin)
               else start + Piece(crc, off, data, begin)
                    + Frame(crc, FragmentStart(off) + HEADER_SIZE + n, data[n..], false)
  {
  }
}
