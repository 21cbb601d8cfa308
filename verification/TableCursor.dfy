/** The SSTable reader object and its two-level iterator. */
module TableCursor {
  import opened Basics
  import opened Keys
  import opened Runs
  import opened Blocks
  import opened TableFormat
  import opened TableWriter
  import opened TableReader

  class Reader {
    const table: Table
    var open: bool

    constructor (table: Table)
      ensures this.table == table && open
    {
      this.table, open := table, true;
    }

    method Close() returns (ok: bool)
      modifies this
      ensures ok == old(open) && !open
    {
      ok := open;
      open := false;
    }

    /** A closed file reads short, so the block counts as corrupt. */
    method ReadBlock(offset: uint64, size: uint32) returns (r: Result<Bytes, TableError>)
      ensures r == if !open || ReadAt(table.file, offset, size).None? then Err(CorruptBlock)
                   else VerifyBlockChecksum(table.crc, ReadAt(table.file, offset, size).value)
    {
      if !open || offset + size > |table.file| {
        return Err(CorruptBlock);
      }
      r := VerifyBlockChecksum(table.crc, table.file[offset..offset + size]);
    }

    method LoadBlockEntries(i: nat) returns (r: Result<seq<Entry>, TableError>)
      requires i < |table.index|
      ensures r == if open then LoadBlock(table, i) else Err(CorruptBlock)
    {
      hide VerifyBlockChecksum;
      var data := ReadBlock(table.index[i].offset, table.index[i].size);
      if data.Err? {
        return Err(data.error);
      }
      r := DecodeBlockEntries(data.value);
    }

    /** The binary search over the index. */
    method SeekBlockIndex(userKey: Bytes) returns (i: nat)
      ensures i == SeekBlock(table, userKey)
    {
      hide Compare;
      var key := MaxLookupKey(userKey);
      i := 0;
      var j := |table.index|;
      while i < j
        invariant i <= j <= |table.index|
        invariant SearchFrom(table.index, key, i, j) == SearchFrom(table.index, key, 0, |table.index|)
      {
        var h := (i + j) / 2;
        if Compare(table.index[h].lastKey, key) < 0 {
          i := h + 1;
        } else {
          j := h;
        }
      }
    }

    /** First visible version in one block, and whether the key is there at all. */
    method ScanBlock(entries: seq<Entry>, userKey: Bytes, seqno: uint64) returns (r: Lookup, found: bool)
      ensures r == ScanGet(entries, userKey, seqno) && found == HasKey(entries, userKey)
    {
      hide FirstVisible, HasKey;
      found := false;
      assert !HasKey(entries[..0], userKey) by { NoKey(userKey); }
      for i := 0 to |entries|
        invariant found == HasKey(entries[..i], userKey)
        invariant FirstVisible(entries[..i], userKey, seqno).None?
      {
        var e := entries[i];
        ScanStep(entries, i, userKey, seqno);
        HasKeyStep(entries, i, userKey);
        if e.key.userKey != userKey {
          continue;
        }
        found := true;
        if e.key.seqno <= seqno {
          if e.key.kind == KIND_DELETE {
            return Tombstone, true;
          }
          return Present(e.value), true;
        }
      }
      assert entries[..|entries|] == entries;
      r := Missing;
    }

    /** Point lookup: seek in the index, then scan adjacent blocks while they have the key. */
    method Get(userKey: Bytes, seqno: uint64) returns (r: Result<Lookup, TableError>)
      ensures open ==> r == TableGet(table, userKey, seqno)
      ensures !open ==> r == if SeekBlock(table, userKey) == |table.index| then Ok(Missing) else Err(CorruptBlock)
    {
      hide SeekBlock, LoadBlock, HasKey, ScanGet;
      var n := |table.index|;
      var i := SeekBlockIndex(userKey);
      if i == n {
        return Ok(Missing);
      }
      ghost var start := i;
      while i < n
        invariant start <= i <= n && (!open ==> i == start < n)
        invariant open ==> GetFrom(table, userKey, seqno, start) == GetFrom(table, userKey, seqno, i)
      {
        var entries := LoadBlockEntries(i);
        if entries.Err? {
          return Err(entries.error);
        }
        var v, found := ScanBlock(entries.value, userKey, seqno);
        if !found {
          return Ok(Missing);
        }
        if v != Missing {
          return Ok(v);
        }
        i := i + 1;
      }
      r := Ok(Missing);
    }
  }

  /** OpenReader: footer, then index, each verified. */
  method OpenReader(crc: Checksum, file: Bytes) returns (r: Result<Reader, TableError>)
    ensures match OpenTable(crc, file)
            case Ok(t) => r.Ok? && fresh(r.value) && r.value.open && r.value.table == t
            case Err(e) => r == Err(e)
  {
    hide DecodeFooter, Unseal;
    if |file| < FOOTER_SIZE {
      return Err(FileTooSmall);
    }
    var footer := DecodeFooter(crc, file[|file| - FOOTER_SIZE..]);
    if footer.Err? {
      return Err(footer.error);
    }
    var offset, size := footer.value.indexOffset, footer.value.indexSize;
    if offset + size > |file| {
      return Err(CorruptIndex);
    }
    var raw := file[offset..offset + size];
    if |raw| < 4 {
      return Err(CorruptIndex);
    }
    var payload := Unseal(crc, raw);
    if payload.None? {
      return Err(IndexChecksumMismatch);
    }
    var index := DecodeIndexEntries(payload.value);
    if index.Err? {
      return Err(index.error);
    }
    var reader := new Reader(Table(crc, file, footer.value, index.value));
    r := Ok(reader);
  }

  // ----- Iteration

  /** The first entry of a block whose user key is at least target; the block's length when there is none. */
  function FirstAtLeast(es: seq<Entry>, target: Bytes): (r: nat)
    ensures r <= |es|
    ensures forall k :: 0 <= k < r ==> CompareBytes(es[k].key.userKey, target) < 0
    ensures r < |es| ==> CompareBytes(es[r].key.userKey, target) >= 0
  {
    if es == [] || CompareBytes(es[0].key.userKey, target) >= 0 then 0 else 1 + FirstAtLeast(es[1..], target)
  }

  datatype Position = At(block: nat, entry: nat) | End | Failed(error: TableError)

  function SeekPosition(t: Table, target: Bytes, i: nat): Position
    requires i <= |t.index|
    decreases |t.index| - i
  {
    if i == |t.index| then End
    else match LoadBlock(t, i)
      case Err(e) => Failed(e)
      case Ok(es) =>
        var k := FirstAtLeast(es, target);
        if k < |es| then At(i, k) else SeekPosition(t, target, i + 1)
  }

  /** Every key of the block is below target. */
  predicate AllLower(t: Table, target: Bytes, i: nat)
    requires i < |t.index|
  {
    LoadBlock(t, i).Ok? && FirstAtLeast(LoadBlock(t, i).value, target) == |LoadBlock(t, i).value|
  }

  /**
   * On any table that opens, damaged ones included: Seek is decided by the first block, from where it starts, that is
   * not wholly below target, and fails if that block cannot be loaded.
   */
  lemma {:induction false} SeekStopsAt(t: Table, target: Bytes, i: nat) returns (k: nat)
    requires i <= |t.index|
    ensures i <= k <= |t.index| && forall j :: i <= j < k ==> AllLower(t, target, j)
    ensures k == |t.index| ==> SeekPosition(t, target, i) == End
    ensures k < |t.index| ==> !AllLower(t, target, k)
    ensures k < |t.index| ==>
              match LoadBlock(t, k)
              case Err(e) => SeekPosition(t, target, i) == Failed(e)
              case Ok(es) => SeekPosition(t, target, i) == At(k, FirstAtLeast(es, target))
    decreases |t.index| - i
  {
    hide LoadBlock, FirstAtLeast;
    k := i;
    if i < |t.index| && AllLower(t, target, i) {
      k := SeekStopsAt(t, target, i + 1);
    }
  }

  /** The entries from a position of a table to its end. */
  ghost function From(blocks: seq<seq<Entry>>, block: nat, entry: nat): seq<Entry>
    requires block < |blocks| && entry <= |blocks[block]|
  {
    blocks[block][entry..] + Flatten(blocks[block + 1..])
  }

  function Tail(es: seq<Entry>): seq<Entry> {
    if es == [] then [] else es[1..]
  }

  /** One step over the two-level position drops exactly the first of the remaining entries. */
  lemma {:induction false} FromStep(blocks: seq<seq<Entry>>, block: nat, entry: nat)
    requires block < |blocks| && entry < |blocks[block]|
    ensures From(blocks, block, entry) != [] && From(blocks, block, entry)[0] == blocks[block][entry]
    ensures From(blocks, block, entry)[1..]
         == if entry + 1 < |blocks[block]| then From(blocks, block, entry + 1)
            else if block + 1 < |blocks| then From(blocks, block + 1, 0)
            else []
  {
    var b := blocks[block];
    assert b[entry..][1..] == b[entry + 1..];
    if entry + 1 == |b| {
      assert b[entry + 1..] == [] && From(blocks, block, entry)[1..] == Flatten(blocks[block + 1..]);
      if block + 1 < |blocks| {
        assert blocks[block + 1..][1..] == blocks[block + 2..] && blocks[block + 1][0..] == blocks[block + 1];
      }
    }
  }

  class Iterator {
    var reader: Reader?
    var blockIdx: nat
    var entries: seq<Entry>
    var entryIdx: nat
    var valid: bool
    var err: Option<TableError>

    /** While it is valid, the iterator stands inside a block that it has loaded. */
    ghost predicate Inv()
      reads this, reader
    {
      valid ==> reader != null && blockIdx < |reader.table.index| && LoadBlock(reader.table, blockIdx) == Ok(entries)
    }

    /** On a table made of these blocks, rest is what is still to come, the current entry first. */
    ghost predicate Stands(blocks: seq<seq<Entry>>, rest: seq<Entry>)
      reads this
    {
      if valid then
        && blockIdx < |blocks| && entries == blocks[blockIdx] && entryIdx < |entries|
        && rest == From(blocks, blockIdx, entryIdx)
      else rest == []
    }

    constructor (reader: Reader)
      ensures Inv() && this.reader == reader && !valid && err == None
    {
      this.reader, blockIdx, entries, entryIdx, valid, err := reader, 0, [], 0, false, None;
    }

    method SeekToFirst()
      requires Inv()
      modifies this
      ensures Inv() && reader == old(reader)
      ensures reader == null ==> !valid && err == Some(IteratorClosed)
      ensures reader != null && reader.table.index == [] ==> !valid && err == None
      ensures reader != null && reader.open && reader.table.index != [] ==>
                match LoadBlock(reader.table, 0)
                case Ok(es) => valid && blockIdx == entryIdx == 0 && entries == es && err == None
                case Err(e) => !valid && err == Some(e)
      ensures reader != null && reader.open ==>
                forall blocks :: Holds(reader.table, blocks) ==> Stands(blocks, Flatten(blocks)) && err == None
    {
      hide LoadBlock;
      if reader == null {
        valid, err := false, Some(IteratorClosed);
        return;
      }
      blockIdx := 0;
      if |reader.table.index| == 0 {
        valid, err := false, None;
        return;
      }
      var es := reader.LoadBlockEntries(blockIdx);
      if es.Err? {
        valid, err := false, Some(es.error);
        return;
      }
      entryIdx, entries, valid, err := 0, es.value, true, None;
    }

    method Seek(target: Bytes)
      requires Inv()
      modifies this
      ensures Inv() && reader == old(reader)
      ensures reader == null ==> !valid && err == Some(IteratorClosed)
      ensures reader != null && reader.open ==>
                match SeekPosition(reader.table, target, SeekBlock(reader.table, target))
                case At(b, e) => valid && blockIdx == b && entryIdx == e && entryIdx < |entries| && err == None
                case End => !valid && err == None
                case Failed(e) => !valid && err == Some(e)
    {
      hide LoadBlock, SeekBlock, FirstAtLeast;
      if reader == null {
        valid, err := false, Some(IteratorClosed);
        return;
      }
      var i := reader.SeekBlockIndex(target);
      ghost var start := i;
      var n := |reader.table.index|;
      while i < n
        invariant start <= i <= n && reader == old(reader)
        invariant reader.open ==> SeekPosition(reader.table, target, start) == SeekPosition(reader.table, target, i)
      {
        var es := reader.LoadBlockEntries(i);
        if es.Err? {
          valid, err := false, Some(es.error);
          return;
        }
        var k := FindInBlock(es.value, target);
        if k < |es.value| {
          blockIdx, entries, entryIdx, valid, err := i, es.value, k, true, None;
          return;
        }
        i := i + 1;
      }
      valid, err := false, None;
    }

    method FindInBlock(es: seq<Entry>, target: Bytes) returns (k: nat)
      ensures k == FirstAtLeast(es, target)
    {
      k := 0;
      while k < |es| && CompareBytes(es[k].key.userKey, target) < 0
        invariant k <= |es| && FirstAtLeast(es, target) == k + FirstAtLeast(es[k..], target)
      {
        assert es[k..][1..] == es[k + 1..];
        k := k + 1;
      }
    }

    /** Moves one entry on, loading the next block when the current one is exhausted. */
    method Next()
      requires Inv()
      modifies this
      ensures Inv() && reader == old(reader)
      ensures !old(valid) ==> !valid && err == old(err)
      ensures valid ==> blockIdx > old(blockIdx) || (blockIdx == old(blockIdx) && entryIdx > old(entryIdx))
      ensures old(valid) && old(entryIdx) + 1 < |old(entries)| ==>
                valid && blockIdx == old(blockIdx) && entries == old(entries) && entryIdx == old(entryIdx) + 1 &&
                  err == old(err)
      ensures old(valid) && old(entryIdx) + 1 >= |old(entries)| && old(blockIdx) + 1 == |reader.table.index| ==>
                !valid && err == old(err)
      ensures old(valid) && old(reader.open) && old(entryIdx) + 1 >= |old(entries)| &&
              old(blockIdx) + 1 < |reader.table.index| ==>
                match LoadBlock(reader.table, old(blockIdx) + 1)
                case Ok(es) => valid && blockIdx == old(blockIdx) + 1 && entryIdx == 0 && entries == es &&
                  err == old(err)
                case Err(e) => !valid && err == Some(e)
      ensures old(valid) && old(reader.open) ==>
                forall blocks, rest :: Holds(reader.table, blocks) && old(Stands(blocks, rest)) ==>
                  Stands(blocks, Tail(rest)) && err == old(err)
    {
      hide LoadBlock, From, Flatten;
      if !valid {
        return;
      }
      forall blocks, rest | Holds(reader.table, blocks) && Stands(blocks, rest)
        ensures Tail(rest) == if entryIdx + 1 < |entries| then From(blocks, blockIdx, entryIdx + 1)
                              else if blockIdx + 1 < |blocks| then From(blocks, blockIdx + 1, 0)
                              else []
      {
        FromStep(blocks, blockIdx, entryIdx);
      }
      entryIdx := entryIdx + 1;
      if entryIdx < |entries| {
        return;
      }
      blockIdx, entryIdx := blockIdx + 1, 0;
      if blockIdx >= |reader.table.index| {
        valid := false;
        return;
      }
      var es := reader.LoadBlockEntries(blockIdx);
      if es.Err? {
        valid, err := false, Some(es.error);
        return;
      }
      entries := es.value;
    }

    /** The entry under a valid iterator. */
    method Current() returns (e: Entry)
      requires Inv() && valid && entryIdx < |entries|
      ensures e == entries[entryIdx]
      ensures forall blocks, rest :: Stands(blocks, rest) ==> rest != [] && e == rest[0]
    {
      forall blocks, rest | Stands(blocks, rest) ensures rest != [] && entries[entryIdx] == rest[0] {
        FromStep(blocks, blockIdx, entryIdx);
      }
      e := entries[entryIdx];
    }

    method Close() returns (ok: bool)
      requires Inv()
      modifies this
      ensures ok == (old(reader) != null) && reader == null && !valid && Inv()
      ensures err == if ok then Some(IteratorClosed) else old(err)
    {
      ok := reader != null;
      if ok {
        reader, entries, valid, err := null, [], false, Some(IteratorClosed);
      }
    }
  }

  /** The position is where es, the tail of the table, first reaches target; End when it never does. */
  ghost predicate LandsOn(p: Position, blocks: seq<seq<Entry>>, es: seq<Entry>, target: Bytes) {
    var k := FirstAtLeast(es, target);
    if k == |es| then p == End
    else p.At? && p.block < |blocks| && p.entry < |blocks[p.block]| && From(blocks, p.block, p.entry) == es[k..]
  }

  /** On a table that holds strictly sorted blocks, Seek lands on the first entry whose user key is at least target. */
  lemma {:induction false} SeekLandsOnSuffix(t: Table, blocks: seq<seq<Entry>>, target: Bytes)
    requires Holds(t, blocks) && StrictlySorted(Flatten(blocks))
    ensures LandsOn(SeekPosition(t, target, SeekBlock(t, target)), blocks, Flatten(blocks), target)
  {
    hide StrictlySorted, SeekBlock, LoadBlock, CompareBytes, Flatten, LandsOn, FirstAtLeast, SeekPosition;
    var i := SeekBlock(t, target);
    SeekSplits(t, blocks, target);
    assert blocks == blocks[..i] + blocks[i..];
    FlattenConcat(blocks[..i], blocks[i..]);
    AllBelow(Flatten(blocks[..i]), target);
    SeekPositionIsFirst(t, blocks, target, i);
    LandsBehind(SeekPosition(t, target, i), blocks, Flatten(blocks[..i]), Flatten(blocks[i..]), target);
  }

  lemma {:induction false} AllBelow(es: seq<Entry>, target: Bytes)
    requires forall e :: e in es ==> CompareBytes(e.key.userKey, target) < 0
    ensures FirstAtLeast(es, target) == |es|
  {
    hide CompareBytes;
  }

  lemma {:induction false} FirstAtLeastConcat(a: seq<Entry>, b: seq<Entry>, target: Bytes)
    ensures FirstAtLeast(a + b, target)
         == if FirstAtLeast(a, target) < |a| then FirstAtLeast(a, target) else |a| + FirstAtLeast(b, target)
  {
    hide CompareBytes;
    if a == [] {
      assert a + b == b;
    } else {
      assert (a + b)[1..] == a[1..] + b;
      FirstAtLeastConcat(a[1..], b, target);
    }
  }

  /** Scanning block after block finds the first such entry of the rest of the table. */
  lemma {:induction false} SeekPositionIsFirst(t: Table, blocks: seq<seq<Entry>>, target: Bytes, i: nat)
    requires Holds(t, blocks) && i <= |blocks|
    ensures LandsOn(SeekPosition(t, target, i), blocks, Flatten(blocks[i..]), target)
    decreases |blocks| - i
  {
    hide CompareBytes, LoadBlock, FirstAtLeast, LandsOn;
    if i < |blocks| {
      var b, rest := blocks[i], Flatten(blocks[i + 1..]);
      assert blocks[i..][1..] == blocks[i + 1..];
      if FirstAtLeast(b, target) < |b| {
        LandsHere(blocks, i, target);
      } else {
        SeekPositionIsFirst(t, blocks, target, i + 1);
        LandsBehind(SeekPosition(t, target, i + 1), blocks, b, rest, target);
      }
    } else {
      LandsNowhere(blocks, target);
    }
  }

  lemma {:induction false} LandsNowhere(blocks: seq<seq<Entry>>, target: Bytes)
    ensures LandsOn(End, blocks, [], target)
  {
    hide CompareBytes;
  }

  lemma {:induction false} LandsHere(blocks: seq<seq<Entry>>, i: nat, target: Bytes)
    requires i < |blocks| && FirstAtLeast(blocks[i], target) < |blocks[i]|
    ensures LandsOn(At(i, FirstAtLeast(blocks[i], target)), blocks, blocks[i] + Flatten(blocks[i + 1..]), target)
  {
    hide CompareBytes, FirstAtLeast, Flatten;
    var b, rest := blocks[i], Flatten(blocks[i + 1..]);
    FirstAtLeastConcat(b, rest, target);
    assert (b + rest)[FirstAtLeast(b, target)..] == b[FirstAtLeast(b, target)..] + rest;
  }

  /** Entries in front that are all below target do not change where a tail is entered. */
  lemma {:induction false} LandsBehind(p: Position, blocks: seq<seq<Entry>>, a: seq<Entry>, b: seq<Entry>,
                                       target: Bytes)
    requires FirstAtLeast(a, target) == |a| && LandsOn(p, blocks, b, target)
    ensures LandsOn(p, blocks, a + b, target)
  {
    hide CompareBytes, FirstAtLeast, From;
    FirstAtLeastConcat(a, b, target);
    var m := FirstAtLeast(b, target);
    assert (a + b)[|a| + m..] == b[m..];
  }

  /** A full scan: SeekToFirst, then Next until the iterator is invalid. */
  method ReadAll(reader: Reader, ghost blocks: seq<seq<Entry>>) returns (es: seq<Entry>)
    requires reader.open && Holds(reader.table, blocks)
    ensures es == Flatten(blocks)
  {
    hide LoadBlock, Flatten, From;
    var it := new Iterator(reader);
    it.SeekToFirst();
    es := [];
    ghost var rest := Flatten(blocks);
    assert [] + rest == rest;
    while it.valid
      invariant it.Inv() && it.reader == reader && reader.open && it.err == None
      invariant it.Stands(blocks, rest) && es + rest == Flatten(blocks)
      decreases |rest|
    {
      FromStep(blocks, it.blockIdx, it.entryIdx);
      var e := it.Current();
      assert es + rest == es + [e] + rest[1..];
      es := es + [e];
      it.Next();
      rest := Tail(rest);
    }
    assert es + [] == es;
  }

  /**
   * End to end through the objects: write a strictly sorted list of storable entries with any block
   * size, open the file, scan it: the same entries, once each, in order.
   */
  method WriteThenRead(crc: Checksum, es: seq<Entry>, blockSize: nat) returns (r: Result<seq<Entry>, TableError>)
    requires StrictlySorted(es) && AllStorable(es)
    requires NoneEmpty(TableBlocks(es, blockSize)) ==> FitsFormat(crc, TableBlocks(es, blockSize))
    ensures r == Ok(es)
  {
    hide StrictlySorted, AllStorable, TableBlocks, TableBytes, OpenTable, LoadBlock, Flatten, FitsFormat;
    var file := WriteTable(crc, es, blockSize);
    TableRoundTrip(crc, es, blockSize);
    var reader := OpenReader(crc, file);
    var all := ReadAll(reader.value, TableBlocks(es, blockSize));
    r := Ok(all);
  }
}
