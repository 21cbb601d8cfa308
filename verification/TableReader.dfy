/** Reading an SSTable: opening, point lookup by binary search over the index, forward iteration. */
module TableReader {
  import opened Basics
  import opened Coding
  import opened Keys
  import opened Runs
  import opened Blocks
  import opened TableFormat
  import opened TableWriter

  /** An opened table: the file, its checksum function, its footer and its decoded index. */
  datatype Table = Table(crc: Checksum, file: Bytes, footer: Footer, index: seq<IndexEntry>)

  /** size bytes at offset, or None where a read would come up short. */
  function ReadAt(file: Bytes, offset: nat, size: nat): Option<Bytes> {
    if offset + size > |file| then None else Some(file[offset..offset + size])
  }

  function OpenTable(crc: Checksum, file: Bytes): Result<Table, TableError> {
    if |file| < FOOTER_SIZE then Err(FileTooSmall)
    else match DecodeFooter(crc, file[|file| - FOOTER_SIZE..])
      case Err(e) => Err(e)
      case Ok(footer) =>
        match ReadAt(file, footer.indexOffset, footer.indexSize)
        case None => Err(CorruptIndex)
        case Some(raw) =>
          match DecodeIndexBlock(crc, raw)
          case Err(e) => Err(e)
          case Ok(index) => Ok(Table(crc, file, footer, index))
  }

  lemma {:induction false} OpenKeepsFile(crc: Checksum, file: Bytes)
    requires OpenTable(crc, file).Ok?
    ensures OpenTable(crc, file).value.file == file && OpenTable(crc, file).value.crc == crc
  {
    hide DecodeFooter, DecodeIndexBlock;
  }

  /** The entries of block i, or why they cannot be had. */
  function LoadBlock(t: Table, i: nat): Result<seq<Entry>, TableError>
    requires i < |t.index|
  {
    match ReadAt(t.file, t.index[i].offset, t.index[i].size)
    case None => Err(CorruptBlock)
    case Some(raw) =>
      match VerifyBlockChecksum(t.crc, raw)
      case Err(e) => Err(e)
      case Ok(payload) => DecodeEntries(payload)
  }

  lemma {:induction false} SmallIsSmall(crc: Checksum, file: Bytes)
    ensures OpenTable(crc, file) == Err(FileTooSmall) <==> |file| < 40
  {
    hide Unseal, TakeIndexEntry, GetU32, GetU64;
    if |file| >= 40 && DecodeFooter(crc, file[|file| - 40..]).Ok? {
      var f := DecodeFooter(crc, file[|file| - 40..]).value;
      if f.indexOffset + f.indexSize <= |file| {
        IndexErrors(crc, file[f.indexOffset..f.indexOffset + f.indexSize]);
      }
    }
  }

  lemma {:induction false} IndexErrors(crc: Checksum, raw: Bytes)
    ensures DecodeIndexBlock(crc, raw) != Err(FileTooSmall)
  {
    hide Unseal;
    if |raw| >= 4 && Unseal(crc, raw).Some? {
      EntryErrors(Unseal(crc, raw).value);
    }
  }

  lemma {:induction false} EntryErrors(s: Bytes)
    ensures DecodeIndex(s).Err? ==> DecodeIndex(s).error == CorruptIndex
    decreases |s|
  {
    hide TakeIndexEntry;
    if s != [] && TakeIndexEntry(s).Some? {
      EntryErrors(TakeIndexEntry(s).value.1);
    }
  }

  /** Exactly the files that open: a footer at the end, and where it says, a sealed index. */
  lemma {:induction false} OpenTableIff(crc: Checksum, file: Bytes, t: Table)
    ensures OpenTable(crc, file) == Ok(t) <==>
              && t.crc == crc && t.file == file && |file| >= 40 && file[|file| - 40..] == EncodeFooter(crc, t.footer)
              && t.footer.indexOffset + t.footer.indexSize <= |file|
              && file[t.footer.indexOffset..t.footer.indexOffset + t.footer.indexSize]
                == Seal(crc, EncodeIndex(t.index))
              && IndexStorable(t.index)
    ensures OpenTable(crc, file) == Err(FileTooSmall) <==> |file| < 40
  {
    SmallIsSmall(crc, file);
    hide DecodeFooter, EncodeFooter, DecodeIndexBlock, Seal, IndexStorable, EncodeIndex;
    FooterRoundTrip(crc, t.footer);
    if |file| >= 40 {
      var tail := file[|file| - 40..];
      if DecodeFooter(crc, tail).Ok? {
        FooterCanonical(crc, tail);
        var f := DecodeFooter(crc, tail).value;
        if f.indexOffset + f.indexSize <= |file| {
          IndexBlockIff(crc, file[f.indexOffset..f.indexOffset + f.indexSize], t.index);
        }
      }
    }
  }

  /** Exactly the blocks that load: the sealed encoding of entries, where the index says. */
  lemma {:induction false} LoadBlockIff(t: Table, i: nat, es: seq<Entry>)
    requires i < |t.index|
    ensures var (from, size) := (t.index[i].offset, t.index[i].size);
            LoadBlock(t, i) == Ok(es) <==>
              from + size <= |t.file| && t.file[from..from + size] == Seal(t.crc, EncodeEntries(es)) && AllStorable(es)
  {
    hide VerifyBlockChecksum, Seal, EncodeEntries, DecodeEntries, AllStorable;
    var (from, size) := (t.index[i].offset, t.index[i].size);
    EntriesRoundTrip(es);
    if from + size <= |t.file| {
      var raw := t.file[from..from + size];
      SealedIff(t.crc, raw, EncodeEntries(es));
      if VerifyBlockChecksum(t.crc, raw).Ok? {
        var payload := VerifyBlockChecksum(t.crc, raw).value;
        SealedIff(t.crc, raw, payload);
        if DecodeEntries(payload).Ok? {
          DecodeEntriesCanonical(payload);
        }
      }
    }
  }

  /** A block that does not load is damaged, if its checksum is there and does not match, or else corrupt. */
  lemma {:induction false} LoadBlockErrors(t: Table, i: nat)
    requires i < |t.index| && LoadBlock(t, i).Err?
    ensures var (from, end) := (t.index[i].offset, t.index[i].offset + t.index[i].size);
            LoadBlock(t, i).error ==
            if end <= |t.file| && from + 4 <= end && BigEndian(t.file[end - 4..end]) != t.crc(t.file[from..end - 4])
            then BlockChecksumMismatch else CorruptBlock
  {
    hide VerifyBlockChecksum, BigEndian, DecodeEntries;
    var (from, end) := (t.index[i].offset, t.index[i].offset + t.index[i].size);
    if end <= |t.file| {
      var raw := t.file[from..end];
      ChecksumDecides(t.crc, raw);
      if from + 4 <= end {
        assert raw[|raw| - 4..] == t.file[end - 4..end] && raw[..|raw| - 4] == t.file[from..end - 4];
        DecodeEntriesErrors(raw[..|raw| - 4]);
      }
    }
  }

  /** A block whose checksum does not match is an error, whatever it would decode to. */
  lemma {:induction false} DamagedBlockIsError(t: Table, i: nat)
    requires i < |t.index| && t.index[i].size >= 4 && t.index[i].offset + t.index[i].size <= |t.file|
    requires var end := t.index[i].offset + t.index[i].size;
             BigEndian(t.file[end - 4..end]) != t.crc(t.file[t.index[i].offset..end - 4])
    ensures LoadBlock(t, i) == Err(BlockChecksumMismatch)
  {
    hide VerifyBlockChecksum, BigEndian;
    var (from, end) := (t.index[i].offset, t.index[i].offset + t.index[i].size);
    var raw := t.file[from..end];
    assert raw[|raw| - 4..] == t.file[end - 4..end] && raw[..|raw| - 4] == t.file[from..end - 4];
    ChecksumDecides(t.crc, raw);
  }

  function MaxLookupKey(userKey: Bytes): InternalKey {
    InternalKey(userKey, MAX_UINT64, KIND_PUT)
  }

  /** sort.Search between i and j: halving, on whatever the index holds. */
  function SearchFrom(index: seq<IndexEntry>, key: InternalKey, i: nat, j: nat): (r: nat)
    requires i <= j <= |index|
    ensures i <= r <= j
    decreases j - i
  {
    if i == j then i
    else
      var h := (i + j) / 2;
      if Compare(index[h].lastKey, key) < 0 then SearchFrom(index, key, h + 1, j) else SearchFrom(index, key, i, h)
  }

  function SeekBlock(t: Table, userKey: Bytes): (r: nat)
    ensures r <= |t.index|
  {
    SearchFrom(t.index, MaxLookupKey(userKey), 0, |t.index|)
  }

  /** Some version of the key is in the list, visible or not. */
  predicate HasKey(es: seq<Entry>, userKey: Bytes) {
    exists e :: e in es && e.key.userKey == userKey
  }

  lemma {:induction false} NoKey(userKey: Bytes)
    ensures !HasKey([], userKey)
  {
  }

  lemma {:induction false} HasKeyStep(es: seq<Entry>, i: nat, userKey: Bytes)
    requires i < |es|
    ensures HasKey(es[..i + 1], userKey) <==> HasKey(es[..i], userKey) || es[i].key.userKey == userKey
    ensures es[i].key.userKey == userKey ==> HasKey(es, userKey)
  {
    assert es[i] in es && es[..i + 1] == es[..i] + [es[i]];
  }

  /** The lookup from block i on: stop at the first answer and at the first block without the key. */
  function GetFrom(t: Table, userKey: Bytes, seqno: nat, i: nat): Result<Lookup, TableError>
    requires i <= |t.index|
    decreases |t.index| - i
  {
    if i == |t.index| then Ok(Missing)
    else match LoadBlock(t, i)
      case Err(e) => Err(e)
      case Ok(es) =>
        if !HasKey(es, userKey) then Ok(Missing)
        else if ScanGet(es, userKey, seqno) != Missing then Ok(ScanGet(es, userKey, seqno))
        else GetFrom(t, userKey, seqno, i + 1)
  }

  function TableGet(t: Table, userKey: Bytes, seqno: nat): Result<Lookup, TableError> {
    GetFrom(t, userKey, seqno, SeekBlock(t, userKey))
  }

  /** The block loads and has versions of the key, none of them visible. */
  predicate PassedOver(t: Table, userKey: Bytes, seqno: nat, i: nat)
    requires i < |t.index|
  {
    LoadBlock(t, i).Ok? && HasKey(LoadBlock(t, i).value, userKey) &&
      ScanGet(LoadBlock(t, i).value, userKey, seqno) == Missing
  }

  /**
   * On any table that opens, damaged ones included: the lookup is decided by the first block, from where it starts,
   * that it does not pass over. If that block cannot be loaded the lookup fails with its error, and otherwise it is
   * what a scan of that block finds.
   */
  lemma {:induction false} LookupStopsAt(t: Table, userKey: Bytes, seqno: nat, i: nat) returns (k: nat)
    requires i <= |t.index|
    ensures i <= k <= |t.index| && forall j :: i <= j < k ==> PassedOver(t, userKey, seqno, j)
    ensures k == |t.index| ==> GetFrom(t, userKey, seqno, i) == Ok(Missing)
    ensures k < |t.index| ==> !PassedOver(t, userKey, seqno, k)
    ensures k < |t.index| ==>
              match LoadBlock(t, k)
              case Err(e) => GetFrom(t, userKey, seqno, i) == Err(e)
              case Ok(es) => GetFrom(t, userKey, seqno, i) == Ok(ScanGet(es, userKey, seqno))
    decreases |t.index| - i
  {
    hide LoadBlock;
    k := i;
    if i < |t.index| && PassedOver(t, userKey, seqno, i) {
      k := LookupStopsAt(t, userKey, seqno, i + 1);
    } else if i < |t.index| && LoadBlock(t, i).Ok? && !HasKey(LoadBlock(t, i).value, userKey) {
      NoVersion(LoadBlock(t, i).value, userKey, seqno);
    }
  }

  lemma {:induction false} NoVersion(es: seq<Entry>, userKey: Bytes, seqno: nat)
    requires !HasKey(es, userKey)
    ensures ScanGet(es, userKey, seqno) == Missing
  {
  }

  // ----- What a table written by Writer gives back

  /** t holds exactly these blocks: each loads, and the index carries its last key. */
  ghost predicate Holds(t: Table, blocks: seq<seq<Entry>>) {
    && |t.index| == |blocks| && NoneEmpty(blocks)
    && (forall i :: 0 <= i < |blocks| ==> LoadBlock(t, i) == Ok(blocks[i]))
    && (forall i :: 0 <= i < |blocks| ==> t.index[i].lastKey == blocks[i][|blocks[i]| - 1].key)
  }

  /**
   * The numbers of the layout fit the widths they are written in. The writer casts without checking
   * ("fits in uint32"); a table whose single block or index exceeds 4 GiB is outside the format.
   */
  predicate FitsFormat(crc: Checksum, blocks: seq<seq<Entry>>)
    requires NoneEmpty(blocks)
  {
    && |DataBytes(crc, blocks)| < 0x1_0000_0000_0000_0000
    && |TableIndex(crc, blocks)| < 0x1_0000_0000
    && forall i :: 0 <= i < |blocks| ==> |EncodeEntries(blocks[i])| + 4 < 0x1_0000_0000
  }

  predicate BlocksStorable(blocks: seq<seq<Entry>>) {
    forall i :: 0 <= i < |blocks| ==> AllStorable(blocks[i])
  }

  lemma {:induction false} IndexFromStorable(crc: Checksum, blocks: seq<seq<Entry>>, offset: nat)
    requires NoneEmpty(blocks) && BlocksStorable(blocks)
    ensures IndexStorable(IndexFrom(crc, blocks, offset))
  {
    hide EncodeEntries, ToUint64, ToUint32, AllStorable;
    if blocks != [] {
      var b := blocks[0];
      AllStorableIs(b);
      assert b[|b| - 1] in b;
      IndexFromStorable(crc, blocks[1..], offset + |EncodeEntries(b)| + 4);
    }
  }

  /** Opening reads the footer at the end of the file and the index where the footer says it is. */
  lemma {:induction false} OpenOfParts(crc: Checksum, data: Bytes, es: seq<IndexEntry>, footer: Footer)
    requires IndexStorable(es)
    requires footer.indexOffset == |data| && footer.indexSize == |Seal(crc, EncodeIndex(es))|
    ensures var file := data + Seal(crc, EncodeIndex(es)) + EncodeFooter(crc, footer);
            OpenTable(crc, file) == Ok(Table(crc, file, footer, es))
  {
    hide EncodeIndex, EncodeFooter, DecodeFooter, Unseal, Seal, IndexStorable, DecodeIndex;
    var index, tail := Seal(crc, EncodeIndex(es)), EncodeFooter(crc, footer);
    var file := data + index + tail;
    FooterRoundTrip(crc, footer);
    assert file[|file| - FOOTER_SIZE..] == tail;
    assert file[|data|..|data| + |index|] == index;
    UnsealOfSealed(crc, EncodeIndex(es));
    DecodeEncodedIndex(es);
  }

  /** Opening a written table reads back its footer and the index of its blocks. */
  lemma {:induction false} OpenOfWritten(crc: Checksum, blocks: seq<seq<Entry>>)
    requires NoneEmpty(blocks) && BlocksStorable(blocks) && FitsFormat(crc, blocks)
    ensures OpenTable(crc, TableBytes(crc, blocks))
         == Ok(Table(crc, TableBytes(crc, blocks), TableFooter(crc, blocks), IndexFrom(crc, blocks, 0)))
  {
    hide OpenTable, EncodeIndex, IndexFrom, DataBytes, EncodeFooter, BlocksStorable, NoneEmpty, EncodeEntries;
    IndexFromStorable(crc, blocks, 0);
    OpenOfParts(crc, DataBytes(crc, blocks), IndexFrom(crc, blocks, 0), TableFooter(crc, blocks));
  }

  /** A sealed block that lies where its index entry says loads as what was sealed. */
  lemma {:induction false} LoadOfParts(t: Table, i: nat, before: Bytes, es: seq<Entry>, after: Bytes)
    requires i < |t.index| && AllStorable(es)
    requires t.file == before + Seal(t.crc, EncodeEntries(es)) + after
    requires t.index[i].offset == |before| && t.index[i].size == |Seal(t.crc, EncodeEntries(es))|
    ensures LoadBlock(t, i) == Ok(es)
  {
    hide EncodeEntries, Seal, Unseal, DecodeEntries, AllStorable;
    var sealed := Seal(t.crc, EncodeEntries(es));
    assert t.file[|before|..|before| + |sealed|] == sealed;
    UnsealOfSealed(t.crc, EncodeEntries(es));
    DecodeEncoded(es);
  }

  /** Every block of a written table loads as it was packed. */
  lemma {:induction false} LoadOfWritten(crc: Checksum, blocks: seq<seq<Entry>>, t: Table, i: nat)
    requires NoneEmpty(blocks) && BlocksStorable(blocks) && FitsFormat(crc, blocks) && i < |blocks|
    requires t == Table(crc, TableBytes(crc, blocks), TableFooter(crc, blocks), IndexFrom(crc, blocks, 0))
    ensures LoadBlock(t, i) == Ok(blocks[i])
    ensures t.index[i].lastKey == blocks[i][|blocks[i]| - 1].key
  {
    hide EncodeEntries, DataBytes, LoadBlock, TableIndex, TableFooter, EncodeFooter, IndexFrom, AllStorable;
    var before, after := DataBytes(crc, blocks[..i]), DataBytes(crc, blocks[i + 1..]);
    var sealed := Seal(crc, EncodeEntries(blocks[i]));
    IndexAt(crc, blocks, 0, i);
    DataSplit(crc, blocks, i);
    var tail := after + TableIndex(crc, blocks) + EncodeFooter(crc, TableFooter(crc, blocks));
    assert t.file == before + sealed + tail by {
      Assoc(before + sealed + after, TableIndex(crc, blocks), EncodeFooter(crc, TableFooter(crc, blocks)));
      Assoc(before + sealed, after, TableIndex(crc, blocks) + EncodeFooter(crc, TableFooter(crc, blocks)));
      Assoc(after, TableIndex(crc, blocks), EncodeFooter(crc, TableFooter(crc, blocks)));
    }
    LoadOfParts(t, i, before, blocks[i], tail);
  }

  lemma {:induction false} DataSplit(crc: Checksum, blocks: seq<seq<Entry>>, i: nat)
    requires i < |blocks|
    ensures DataBytes(crc, blocks)
         == DataBytes(crc, blocks[..i]) + Seal(crc, EncodeEntries(blocks[i])) + DataBytes(crc, blocks[i + 1..])
  {
    hide EncodeEntries, Seal;
    assert blocks == blocks[..i] + blocks[i..];
    DataConcat(crc, blocks[..i], blocks[i..]);
    assert blocks[i..][1..] == blocks[i + 1..];
  }

  /**
   * The table round trip: a strictly sorted list of storable entries, written with any block size,
   * opens again and holds blocks that concatenate to exactly that list.
   */
  lemma {:induction false} TableRoundTrip(crc: Checksum, es: seq<Entry>, blockSize: nat)
    requires AllStorable(es)
    requires NoneEmpty(TableBlocks(es, blockSize)) ==> FitsFormat(crc, TableBlocks(es, blockSize))
    ensures var blocks := TableBlocks(es, blockSize);
            && NoneEmpty(blocks) && Flatten(blocks) == es
            && var r := OpenTable(crc, TableBytes(crc, blocks));
               && r.Ok? && Holds(r.value, blocks)
               && r.value.footer.dataBlockCount == |blocks|
               && r.value.footer.indexOffset == |DataBytes(crc, blocks)|
               && r.value.footer.entryCount == ToUint64(|es|)
  {
    hide EncodeEntries, TableBytes, OpenTable, LoadBlock, AllStorable, TableBlocks, Flatten, DataBytes, IndexFrom,
         EncodeIndex, BlocksStorable;
    var blocks := TableBlocks(es, blockSize);
    TableBlocksKeep(es, blockSize);
    BlocksOfStorable(blocks);
    OpenOfWritten(crc, blocks);
    var t := OpenTable(crc, TableBytes(crc, blocks)).value;
    forall i | 0 <= i < |blocks|
      ensures LoadBlock(t, i) == Ok(blocks[i]) && t.index[i].lastKey == blocks[i][|blocks[i]| - 1].key
    {
      LoadOfWritten(crc, blocks, t, i);
    }
    IndexAtLeast(IndexFrom(crc, blocks, 0));
  }

  lemma {:induction false} BlocksOfStorable(blocks: seq<seq<Entry>>)
    requires AllStorable(Flatten(blocks))
    ensures BlocksStorable(blocks)
  {
    hide Storable;
    AllStorableIs(Flatten(blocks));
    forall i | 0 <= i < |blocks| ensures AllStorable(blocks[i]) {
      AllStorableIs(blocks[i]);
      forall k | 0 <= k < |blocks[i]| ensures Storable(blocks[i][k]) {
        InFlatten(blocks, i, k);
      }
    }
  }

  lemma {:induction false} IndexAtLeast(es: seq<IndexEntry>)
    ensures |EncodeIndex(es)| >= 25 * |es|
  {
    hide EncodeIndexEntry;
    if es != [] {
      IndexEntryNotEmpty(es[0]);
      IndexAtLeast(es[1..]);
    }
  }

  // ----- Point lookup

  /** Binary search over increasing keys finds the first entry that is not below the key. */
  lemma {:induction false} SearchIsFirst(index: seq<IndexEntry>, key: InternalKey, i: nat, j: nat)
    requires i <= j <= |index|
    requires forall a, b :: 0 <= a < b < |index| ==> Compare(index[a].lastKey, index[b].lastKey) < 0
    requires forall a :: 0 <= a < i ==> Compare(index[a].lastKey, key) < 0
    requires forall a :: j <= a < |index| ==> Compare(index[a].lastKey, key) >= 0
    ensures var r := SearchFrom(index, key, i, j);
            && (forall a :: 0 <= a < r ==> Compare(index[a].lastKey, key) < 0)
            && (forall a :: r <= a < |index| ==> Compare(index[a].lastKey, key) >= 0)
    decreases j - i
  {
    hide Compare;
    if i < j {
      var h := (i + j) / 2;
      if Compare(index[h].lastKey, key) < 0 {
        forall a | 0 <= a < h + 1 ensures Compare(index[a].lastKey, key) < 0 {
          if a < h {
            CompareTransitive(index[a].lastKey, index[h].lastKey, key);
          }
        }
        SearchIsFirst(index, key, h + 1, j);
      } else {
        forall a | h <= a < |index| ensures Compare(index[a].lastKey, key) >= 0 {
          if a > h && Compare(index[a].lastKey, key) < 0 {
            CompareTransitive(index[h].lastKey, index[a].lastKey, key);
          }
        }
        SearchIsFirst(index, key, i, h);
      }
    }
  }

  lemma {:induction false} MaxKeyBelow(e: Entry, userKey: Bytes)
    ensures Compare(e.key, MaxLookupKey(userKey)) < 0 <==> CompareBytes(e.key.userKey, userKey) < 0
  {
  }

  lemma {:induction false} LastIn(es: seq<Entry>)
    requires es != []
    ensures es[|es| - 1] in es
  {
  }

  /** Where a table's strictly sorted blocks end below a user key, the key is not in them. */
  lemma {:induction false} BelowHasNoKey(blocks: seq<seq<Entry>>, userKey: Bytes)
    requires NoneEmpty(blocks) && StrictlySorted(Flatten(blocks)) && blocks != []
    requires CompareBytes(blocks[|blocks| - 1][|blocks[|blocks| - 1]| - 1].key.userKey, userKey) < 0
    ensures forall e :: e in Flatten(blocks) ==> CompareBytes(e.key.userKey, userKey) < 0
  {
    hide StrictlySorted, Compare, CompareBytes;
    var n := |blocks| - 1;
    var b := blocks[n];
    assert blocks == blocks[..n] + [b];
    FlattenSnoc(blocks[..n], b);
    var es := Flatten(blocks);
    assert es == Flatten(blocks[..n]) + b[..|b| - 1] + [b[|b| - 1]];
    StrictlySortedConcat(Flatten(blocks[..n]) + b[..|b| - 1], [b[|b| - 1]]);
    forall e | e in es ensures CompareBytes(e.key.userKey, userKey) < 0 {
      if e != b[|b| - 1] {
        assert b[|b| - 1] in [b[|b| - 1]];
        BelowIsBelow(e, b[|b| - 1], userKey);
      }
    }
  }

  lemma {:induction false} BelowIsBelow(e: Entry, last: Entry, userKey: Bytes)
    requires Compare(e.key, last.key) < 0 && CompareBytes(last.key.userKey, userKey) < 0
    ensures CompareBytes(e.key.userKey, userKey) < 0
  {
    CompareBytesAntisymmetric(e.key.userKey, last.key.userKey);
    CompareBytesTransitive(e.key.userKey, last.key.userKey, userKey);
  }

  /** Entries after one that is past the user key are past it too. */
  lemma {:induction false} AboveIsAbove(last: Entry, e: Entry, userKey: Bytes)
    requires Compare(last.key, e.key) < 0 && CompareBytes(last.key.userKey, userKey) > 0
    ensures CompareBytes(e.key.userKey, userKey) > 0
  {
    CompareBytesAntisymmetric(last.key.userKey, userKey);
    CompareBytesAntisymmetric(e.key.userKey, userKey);
    if CompareBytes(e.key.userKey, userKey) <= 0 {
      CompareBytesAntisymmetric(last.key.userKey, e.key.userKey);
      CompareBytesTransitive(last.key.userKey, e.key.userKey, userKey);
    }
  }

  /**
   * Scanning adjacent blocks and stopping at the first without the key is a linear scan of the rest
   * of the table, once the block's last key has reached the user key.
   */
  lemma {:induction false} GetFromIsScan(t: Table, blocks: seq<seq<Entry>>, userKey: Bytes, seqno: nat, i: nat)
    requires Holds(t, blocks) && i <= |blocks|
    requires StrictlySorted(Flatten(blocks[i..]))
    requires i < |blocks| ==> CompareBytes(blocks[i][|blocks[i]| - 1].key.userKey, userKey) >= 0
    ensures GetFrom(t, userKey, seqno, i) == Ok(ScanGet(Flatten(blocks[i..]), userKey, seqno))
    decreases |blocks| - i
  {
    hide StrictlySorted, Compare, CompareBytes, LoadBlock, HasKey, FirstVisible;
    if i < |blocks| {
      var b, rest := blocks[i], Flatten(blocks[i + 1..]);
      assert blocks[i..][1..] == blocks[i + 1..];
      StrictlySortedConcat(b, rest);
      FirstVisibleConcat(b, rest, userKey, seqno);
      if !HasKey(b, userKey) {
        NothingBehind(b, rest, userKey, seqno);
      } else if ScanGet(b, userKey, seqno) == Missing {
        if i + 1 < |blocks| {
          NextReaches(blocks, i, userKey);
        }
        GetFromIsScan(t, blocks, userKey, seqno, i + 1);
      }
    }
  }

  /** A block that has reached a user key it does not hold: neither it nor what follows has a version of the key. */
  lemma {:induction false} NothingBehind(b: seq<Entry>, rest: seq<Entry>, userKey: Bytes, seqno: nat)
    requires b != [] && StrictlySorted(b) && CompareBytes(b[|b| - 1].key.userKey, userKey) >= 0 && !HasKey(b, userKey)
    requires forall x, y :: x in b && y in rest ==> Compare(x.key, y.key) < 0
    ensures FirstVisible(b, userKey, seqno).None? && FirstVisible(rest, userKey, seqno).None?
  {
    hide StrictlySorted, Compare, CompareBytes;
    var last := b[|b| - 1];
    LastIn(b);
    CompareBytesAntisymmetric(last.key.userKey, userKey);
    forall e | e in rest ensures e.key.userKey != userKey {
      AboveIsAbove(last, e, userKey);
      CompareBytesAntisymmetric(e.key.userKey, userKey);
    }
  }

  /** The blocks after one that has reached the user key have reached it as well. */
  lemma {:induction false} NextReaches(blocks: seq<seq<Entry>>, i: nat, userKey: Bytes)
    requires NoneEmpty(blocks) && i + 1 < |blocks| && StrictlySorted(Flatten(blocks[i..]))
    requires CompareBytes(blocks[i][|blocks[i]| - 1].key.userKey, userKey) >= 0
    ensures CompareBytes(blocks[i + 1][|blocks[i + 1]| - 1].key.userKey, userKey) >= 0
  {
    hide StrictlySorted, Flatten;
    var suffix := blocks[i..];
    LastKeysIncrease(suffix, 0, 1);
    var a, b := blocks[i][|blocks[i]| - 1].key, blocks[i + 1][|blocks[i + 1]| - 1].key;
    assert Compare(a, b) < 0;
    if CompareBytes(b.userKey, userKey) < 0 {
      BelowIsBelow(Entry(a, []), Entry(b, []), userKey);
    }
  }

  /** On a table that holds strictly sorted blocks, Get is the linear scan of all entries. */
  lemma {:induction false} LookupIsScan(t: Table, blocks: seq<seq<Entry>>, userKey: Bytes, seqno: nat)
    requires Holds(t, blocks) && StrictlySorted(Flatten(blocks))
    ensures TableGet(t, userKey, seqno) == Ok(ScanGet(Flatten(blocks), userKey, seqno))
  {
    hide StrictlySorted, Flatten, Compare, CompareBytes, LoadBlock, GetFrom;
    var i := SeekBlock(t, userKey);
    SeekSplits(t, blocks, userKey);
    assert blocks == blocks[..i] + blocks[i..];
    FlattenConcat(blocks[..i], blocks[i..]);
    StrictlySortedConcat(Flatten(blocks[..i]), Flatten(blocks[i..]));
    FirstVisibleConcat(Flatten(blocks[..i]), Flatten(blocks[i..]), userKey, seqno);
    forall e | e in Flatten(blocks[..i]) ensures e.key.userKey != userKey {
      CompareBytesAntisymmetric(e.key.userKey, userKey);
    }
    GetFromIsScan(t, blocks, userKey, seqno, i);
  }

  /** The block the index search lands on is the first whose last key reaches the user key. */
  lemma {:induction false} SeekSplits(t: Table, blocks: seq<seq<Entry>>, userKey: Bytes)
    requires Holds(t, blocks) && StrictlySorted(Flatten(blocks))
    ensures var i := SeekBlock(t, userKey);
            && i <= |blocks|
            && (forall e :: e in Flatten(blocks[..i]) ==> CompareBytes(e.key.userKey, userKey) < 0)
            && (i < |blocks| ==> CompareBytes(blocks[i][|blocks[i]| - 1].key.userKey, userKey) >= 0)
  {
    hide StrictlySorted, Flatten, LoadBlock, Compare, CompareBytes, SearchFrom;
    var i := SeekBlock(t, userKey);
    forall a, b | 0 <= a < b < |t.index| ensures Compare(t.index[a].lastKey, t.index[b].lastKey) < 0 {
      LastKeysIncrease(blocks, a, b);
    }
    SearchIsFirst(t.index, MaxLookupKey(userKey), 0, |t.index|);
    if i < |blocks| {
      MaxKeyBelow(blocks[i][|blocks[i]| - 1], userKey);
    }
    if i > 0 {
      MaxKeyBelow(blocks[i - 1][|blocks[i - 1]| - 1], userKey);
      assert blocks == blocks[..i] + blocks[i..];
      FlattenConcat(blocks[..i], blocks[i..]);
      StrictlySortedConcat(Flatten(blocks[..i]), Flatten(blocks[i..]));
      assert t.index[i - 1].lastKey == blocks[..i][i - 1][|blocks[i - 1]| - 1].key;
      BelowHasNoKey(blocks[..i], userKey);
    } else {
      assert Flatten(blocks[..0]) == [] by { EmptyFlatten(); }
    }
  }

  lemma {:induction false} EmptyFlatten()
    ensures Flatten([]) == []
  {
  }
}
