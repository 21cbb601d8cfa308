/** The log files: a reader that stops at the first torn record and a writer whose Sync is the durability step. */
module Wal {
  import opened Basics
  import opened Coding
  import opened Records

  datatype ReadError = ReaderClosed | EndOfFile | TruncatedRecord | BadRecord(error: RecordError)

  datatype WriteError = WriterClosed | TooLarge | WriteFailed | SyncFailed

  class Reader {
    const format: Format
    const data: Bytes
    var open: bool

    /** Where the buffered stream stands, and the offset after the last validated record. */
    var cursor: nat
    var pos: nat

    ghost predicate Valid()
      reads this
    {
      format.Valid() && pos <= cursor <= |data|
    }

    /** No error has been met yet, so nothing past the last record has been consumed. */
    ghost predicate AtBoundary()
      reads this
    {
      Valid() && open && pos == cursor
    }

    constructor (format: Format, data: Bytes)
      requires format.Valid()
      ensures AtBoundary() && pos == 0 && this.format == format && this.data == data
    {
      this.format, this.data, open, cursor, pos := format, data, true, 0, 0;
    }

    /** Reads the next payload, or says why there is none; only a good record moves the valid offset. */
    method Next() returns (r: Result<Bytes, ReadError>)
      requires Valid()
      modifies this
      ensures Valid() && open == old(open) && old(cursor) <= cursor
      ensures !open ==> r == Err(ReaderClosed) && pos == old(pos)
      ensures open ==> match NextRecord(format, data[old(cursor)..])
                       case Rec(p, rest) =>
                         && r == Ok(p) && data[cursor..] == rest && cursor == old(cursor) + HEADER_SIZE + |p|
                         && pos == old(pos) + HEADER_SIZE + |p|
                       case Eof => r == Err(EndOfFile) && pos == old(pos)
                       case Torn => r == Err(TruncatedRecord) && pos == old(pos) && cursor == |data|
                       case Bad(e) => r == Err(BadRecord(e)) && pos == old(pos)
    {
      hide GetU32;
      if !open {
        return Err(ReaderClosed);
      }
      ghost var s := data[cursor..];
      if cursor == |data| {
        return Err(EndOfFile);
      }
      if |data| - cursor < HEADER_SIZE {
        cursor := |data|;
        return Err(TruncatedRecord);
      }
      var header := data[cursor..cursor + HEADER_SIZE];
      assert header == s[..HEADER_SIZE];
      cursor := cursor + HEADER_SIZE;
      assert data[cursor..] == s[HEADER_SIZE..];
      var h := DecodeHeader(format, header);
      if h.Err? {
        return Err(BadRecord(h.error));
      }
      var (length, crc) := h.value;
      if |data| - cursor < length {
        cursor := |data|;
        return Err(TruncatedRecord);
      }
      var payload := data[cursor..cursor + length];
      assert payload == s[HEADER_SIZE..][..length];
      cursor := cursor + length;
      assert data[cursor..] == s[HEADER_SIZE..][length..];
      if format.crc(payload) != crc {
        return Err(BadRecord(BadChecksum));
      }
      pos := pos + HEADER_SIZE + length;
      r := Ok(payload);
    }

    /** Calls Next until it stops: the loop of every replay. */
    method ReadAll() returns (payloads: seq<Bytes>, end: ReadError)
      requires AtBoundary() && pos == 0
      modifies this
      ensures Valid() && open
      ensures var scan := ReadLog(format, data);
              payloads == scan.payloads && pos == scan.valid
              && end == match scan.end case Eof => EndOfFile case Torn => TruncatedRecord case Bad(e) => BadRecord(e)
    {
      hide NextRecord;
      payloads := [];
      assert data[0..] == data;
      ScanPlusNothing(ReadLog(format, data));
      while true
        invariant AtBoundary()
        invariant ReadLog(format, data) == Plus(payloads, pos, ReadLog(format, data[pos..]))
        decreases |data| - pos
      {
        ghost var s := data[pos..];
        var r := Next();
        match r
        case Ok(p) =>
          PlusPlus(payloads, pos - HEADER_SIZE - |p|, [p], HEADER_SIZE + |p|, ReadLog(format, data[pos..]));
          payloads := payloads + [p];
        case Err(e) =>
          PlusEnd(payloads, pos, NextRecord(format, s));
          return payloads, e;
      }
    }

    method Close() returns (ok: bool)
      modifies this
      ensures ok == old(open) && !open && pos == old(pos) && cursor == old(cursor)
    {
      ok := open;
      open := false;
    }
  }

  function Plus(payloads: seq<Bytes>, bytes: nat, s: Scan): Scan {
    Scan(payloads + s.payloads, bytes + s.valid, s.end)
  }

  lemma {:induction false} ScanPlusNothing(s: Scan)
    ensures Plus([], 0, s) == s
  {
  }

  lemma {:induction false} PlusPlus(a: seq<Bytes>, m: nat, b: seq<Bytes>, n: nat, s: Scan)
    ensures Plus(a, m, Plus(b, n, s)) == Plus(a + b, m + n, s)
  {
    assert a + (b + s.payloads) == a + b + s.payloads;
  }

  lemma {:induction false} PlusEnd(a: seq<Bytes>, m: nat, end: Step)
    ensures Plus(a, m, Scan([], 0, end)) == Scan(a, m, end)
  {
    assert a + [] == a;
  }

  /** What went wrong inside one Sync, if anything; spilled is how much of the buffer reached the file first. */
  datatype SyncFault = NoFault | FlushFault(spilled: nat) | FsyncFault

  class Writer {
    const format: Format
    var open: bool

    /** The file as the operating system has it, and the buffer in front of it. */
    var file: Bytes
    var buf: Bytes

    /** How much of the file would survive a power loss for certain. */
    ghost var synced: nat

    /** A failed buffer flush sticks: every later write reports it. */
    var failed: bool

    ghost predicate Valid()
      reads this
    {
      format.Valid() && synced <= |file|
    }

    /** Everything appended so far, in order. */
    ghost function Appended(): Bytes
      reads this
    {
      file + buf
    }

    /** What a power loss may leave: the durable bytes and any prefix of the rest of the file. */
    ghost predicate MaySurvive(image: Bytes)
      requires Valid()
      reads this
    {
      synced <= |image| <= |file| && image == file[..|image|]
    }

    /** Opens in append mode on what recovery left. Nothing is synced: what was not durable still is not. */
    constructor (format: Format, existing: Bytes, ghost durable: nat)
      requires format.Valid() && durable <= |existing|
      ensures Valid() && open && !failed && Appended() == existing && file == existing && synced == durable
      ensures this.format == format
    {
      this.format, open, file, synced, buf, failed := format, true, existing, durable, [], false;
    }

    /** Buffers one record; a full buffer spills an arbitrary part of itself into the file. */
    method Append(payload: Bytes) returns (r: Result<(), WriteError>)
      requires Valid()
      modifies this
      ensures Valid() && synced == old(synced) && open == old(open) && failed == old(failed)
      ensures file[..synced] == old(file[..synced])
      ensures r.Ok? <==> EncodeRecord(format, payload).Ok? && open && !failed
      ensures r.Ok? ==> Appended() == old(Appended()) + Record(format, payload)
      ensures r.Err? ==> Appended() == old(Appended()) && file == old(file)
      ensures r.Err? ==> r.error == if EncodeRecord(format, payload).Err? then TooLarge
                                    else if !open then WriterClosed else WriteFailed
    {
      var record := Encode(format, payload);
      if record.Err? {
        return Err(TooLarge);
      }
      if !open {
        return Err(WriterClosed);
      }
      if failed {
        return Err(WriteFailed);
      }
      buf := buf + record.value;
      assert file + buf == old(Appended()) + record.value;
      var k :| 0 <= k <= |buf|;
      file, buf := file + buf[..k], buf[k..];
      r := Ok(());
    }

    /** Flushes the buffer and fsyncs; only success makes anything durable for certain. */
    method Sync(fault: SyncFault) returns (r: Result<(), WriteError>)
      requires Valid()
      requires fault.FlushFault? ==> fault.spilled <= |buf|
      modifies this
      ensures Valid() && open == old(open)
      ensures Appended() == old(Appended())
      ensures r == if !open then Err(WriterClosed)
                   else if old(failed) || fault.FlushFault? then Err(WriteFailed)
                   else if fault.FsyncFault? then Err(SyncFailed)
                   else Ok(())
      ensures r.Ok? ==> synced == |Appended()| && file == Appended()
      ensures r.Err? ==> synced == old(synced)
      ensures failed == (old(failed) || (open && fault.FlushFault?))
      ensures old(file) <= file
    {
      if !open {
        return Err(WriterClosed);
      }
      if failed {
        return Err(WriteFailed);
      }
      if fault.FlushFault? {
        file, buf, failed := file + buf[..fault.spilled], buf[fault.spilled..], true;
        return Err(WriteFailed);
      }
      file, buf := file + buf, [];
      assert file + buf == file;
      if fault.FsyncFault? {
        return Err(SyncFailed);
      }
      synced := |file|;
      r := Ok(());
    }

    /**
     * Flushes what can be flushed, syncs what is in the file, and closes, whatever goes wrong. Success leaves every
     * appended byte durable.
     */
    method Close(fault: SyncFault) returns (r: Result<(), WriteError>)
      requires Valid()
      requires fault.FlushFault? ==> fault.spilled <= |buf|
      modifies this
      ensures Valid() && !open && buf == []
      ensures r == if !old(open) then Err(WriterClosed)
                   else if old(failed) || fault.FlushFault? then Err(WriteFailed)
                   else if fault.FsyncFault? then Err(SyncFailed)
                   else Ok(())
      ensures r.Ok? ==> file == old(Appended()) && synced == |file|
      ensures old(file) <= file <= old(Appended()) && synced >= old(synced)
    {
      ghost var appended := Appended();
      if !open {
        buf := [];
        return Err(WriterClosed);
      }
      var flushed := !failed && !fault.FlushFault?;
      if flushed {
        file := file + buf;
      } else if !failed {
        file := file + buf[..fault.spilled];
      }
      open, buf := false, [];
      if fault.FsyncFault? {
        return Err(if flushed then SyncFailed else WriteFailed);
      }
      synced := |file|;
      r := if flushed then Ok(()) else Err(WriteFailed);
    }
  }

  /**
   * The log after a crash: if records were appended, and the first m of them synced, then whatever bytes
   * survive read back as at least those m records and as whole records only.
   */
  lemma {:induction false} SurvivorsAreWholeRecords(f: Format, payloads: seq<Bytes>, m: nat, image: Bytes)
    requires f.Valid() && AllAllowed(f, payloads) && m <= |payloads|
    requires |EncodeAll(f, payloads[..m])| <= |image| <= |EncodeAll(f, payloads)|
    requires image == EncodeAll(f, payloads)[..|image|]
    ensures var scan := ReadLog(f, image);
            var k := Whole(f, payloads, |image|);
            && m <= k <= |payloads| && scan.payloads == payloads[..k] && !scan.end.Bad?
            && image[..scan.valid] == EncodeAll(f, payloads[..k])
  {
    TornLog(f, payloads, |image|);
    WholeIsLargest(f, payloads, |image|, m);
    ValidPrefixIsRecords(f, image);
  }
}
