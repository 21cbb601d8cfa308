/** The rest of the SSTable layout: index block, footer, and what a whole table file is. */
module TableFormat {
  import opened Basics
  import opened Coding
  import opened Keys
  import opened Runs
  import opened Blocks

  datatype IndexEntry = IndexEntry(lastKey: InternalKey, offset: uint64, size: uint32)

  /** [keyLen:4][lastKey][offset:8][size:4] */
  function EncodeIndexEntry(e: IndexEntry): Bytes {
    Field(EncodeKey(e.lastKey)) + (U64(e.offset) + U32(e.size))
  }

  function EncodeIndex(es: seq<IndexEntry>): Bytes {
    if es == [] then [] else EncodeIndexEntry(es[0]) + EncodeIndex(es[1..])
  }

  function TakeIndexEntry(s: Bytes): (r: Option<(IndexEntry, Bytes)>)
    ensures r.Some? ==> |r.value.1| < |s|
  {
    match TakeField(s)
    case None => None
    case Some((keyBytes, rest)) =>
      match DecodeKey(keyBytes)
      case None => None
      case Some(key) =>
        match TakeU64(rest)
        case None => None
        case Some((offset, rest')) =>
          match TakeU32(rest')
          case None => None
          case Some((size, rest'')) => Some((IndexEntry(key, offset, size), rest''))
  }

  function PrependIndex(es: seq<IndexEntry>, r: Result<seq<IndexEntry>, TableError>)
    : Result<seq<IndexEntry>, TableError>
  {
    if r.Err? then r else Ok(es + r.value)
  }

  function DecodeIndex(s: Bytes): Result<seq<IndexEntry>, TableError>
    decreases |s|
  {
    if s == [] then Ok([])
    else match TakeIndexEntry(s)
      case None => Err(CorruptIndex)
      case Some((e, rest)) => PrependIndex([e], DecodeIndex(rest))
  }

  lemma {:induction false} PrependIndexTwice(a: seq<IndexEntry>, b: seq<IndexEntry>,
                                             r: Result<seq<IndexEntry>, TableError>)
    ensures PrependIndex(a, PrependIndex(b, r)) == PrependIndex(a + b, r)
    ensures PrependIndex([], r) == r
    ensures PrependIndex(a, Ok([])) == Ok(a)
  {
    assert a + [] == a;
    if r.Ok? {
      assert a + (b + r.value) == a + b + r.value;
      assert [] + r.value == r.value;
    }
  }

  predicate IndexStorable(es: seq<IndexEntry>) {
    es == [] || (ValidKind(es[0].lastKey.kind) && |es[0].lastKey.userKey| + 9 < 0x1_0000_0000 && IndexStorable(es[1..]))
  }

  lemma {:induction false} TakeIndexEntryOf(e: IndexEntry, rest: Bytes)
    requires ValidKind(e.lastKey.kind) && |e.lastKey.userKey| + 9 < 0x1_0000_0000
    ensures TakeIndexEntry(EncodeIndexEntry(e) + rest) == Some((e, rest))
  {
    hide U32, U64, DecodeKey, EncodeKey, TakeField, Field, TakeU32, TakeU64;
    var tail := U64(e.offset) + U32(e.size);
    Assoc(Field(EncodeKey(e.lastKey)), tail, rest);
    TakeFieldOf(EncodeKey(e.lastKey), tail + rest);
    KeyRoundTrip(e.lastKey);
    Assoc(U64(e.offset), U32(e.size), rest);
    TakeU64Of(e.offset, U32(e.size) + rest);
    TakeU32Of(e.size, rest);
  }

  /** Index entries come back from their encoding. */
  lemma {:induction false} DecodeEncodedIndex(es: seq<IndexEntry>)
    requires IndexStorable(es)
    ensures DecodeIndex(EncodeIndex(es)) == Ok(es)
  {
    hide TakeIndexEntry, EncodeIndexEntry;
    if es != [] {
      IndexEntryNotEmpty(es[0]);
      TakeIndexEntryOf(es[0], EncodeIndex(es[1..]));
      DecodeEncodedIndex(es[1..]);
      assert [es[0]] + es[1..] == es;
    }
  }

  lemma {:induction false} IndexEntryNotEmpty(e: IndexEntry)
    ensures |EncodeIndexEntry(e)| >= 25
  {
  }

  lemma {:induction false} IndexConcat(a: seq<IndexEntry>, b: seq<IndexEntry>)
    ensures EncodeIndex(a + b) == EncodeIndex(a) + EncodeIndex(b)
  {
    hide EncodeIndexEntry;
    if a == [] {
      assert a + b == b;
    } else {
      assert (a + b)[1..] == a[1..] + b;
      IndexConcat(a[1..], b);
      Assoc(EncodeIndexEntry(a[0]), EncodeIndex(a[1..]), EncodeIndex(b));
    }
  }

  lemma {:induction false} IndexSnoc(es: seq<IndexEntry>, e: IndexEntry)
    ensures EncodeIndex(es + [e]) == EncodeIndex(es) + EncodeIndexEntry(e)
  {
    hide EncodeIndexEntry;
    IndexConcat(es, [e]);
    assert [e][1..] == [] && EncodeIndex([e]) == EncodeIndexEntry(e) + [] == EncodeIndexEntry(e);
  }

  /** decodeIndexBlock: checksum first, then the entries. */
  function DecodeIndexBlock(crc: Checksum, raw: Bytes): Result<seq<IndexEntry>, TableError> {
    if |raw| < 4 then Err(CorruptIndex)
    else match Unseal(crc, raw)
      case None => Err(IndexChecksumMismatch)
      case Some(payload) => DecodeIndex(payload)
  }

  lemma {:induction false} TakeIndexEntryCanonical(s: Bytes)
    requires TakeIndexEntry(s).Some?
    ensures var (e, rest) := TakeIndexEntry(s).value;
            s == EncodeIndexEntry(e) + rest && IndexStorable([e])
  {
    hide U32, U64, GetU32, GetU64, DecodeKey, EncodeKey, TakeField, Field;
    TakeFieldCanonical(s);
    var (keyBytes, tail) := TakeField(s).value;
    KeyCanonical(keyBytes);
    U64Canonical(tail);
    U32Canonical(tail[8..]);
    var (e, rest) := TakeIndexEntry(s).value;
    Assoc(U64(e.offset), U32(e.size), rest);
    Assoc(Field(EncodeKey(e.lastKey)), U64(e.offset) + U32(e.size), rest);
  }

  /** Whatever the index decoder accepts is the encoding of what it returns. */
  lemma {:induction false} DecodeIndexCanonical(s: Bytes)
    requires DecodeIndex(s).Ok?
    ensures s == EncodeIndex(DecodeIndex(s).value) && IndexStorable(DecodeIndex(s).value)
    decreases |s|
  {
    hide TakeIndexEntry, EncodeIndexEntry;
    if s != [] {
      TakeIndexEntryCanonical(s);
      var (e, rest) := TakeIndexEntry(s).value;
      DecodeIndexCanonical(rest);
      assert DecodeIndex(s).value[1..] == DecodeIndex(rest).value;
    }
  }

  lemma {:induction false} DecodeIndexErrors(s: Bytes)
    ensures DecodeIndex(s).Err? ==> DecodeIndex(s) == Err(CorruptIndex)
    decreases |s|
  {
    hide TakeIndexEntry;
    if s != [] && TakeIndexEntry(s).Some? {
      DecodeIndexErrors(TakeIndexEntry(s).value.1);
    }
  }

  /** Of the two errors of an index block the checksum comes first. */
  lemma {:induction false} IndexBlockErrors(crc: Checksum, raw: Bytes)
    requires DecodeIndexBlock(crc, raw).Err?
    ensures DecodeIndexBlock(crc, raw).error ==
            if |raw| >= 4 && BigEndian(raw[|raw| - 4..]) != crc(raw[..|raw| - 4]) then IndexChecksumMismatch
            else CorruptIndex
  {
    hide U32, GetU32, DecodeIndex, BigEndian;
    if |raw| >= 4 {
      FourDigits(raw[|raw| - 4..]);
      DecodeIndexErrors(raw[..|raw| - 4]);
    }
  }

  /** An index block is accepted exactly when it is a sealed index that can be stored; a wrong checksum says so. */
  lemma {:induction false} IndexBlockIff(crc: Checksum, raw: Bytes, es: seq<IndexEntry>)
    ensures DecodeIndexBlock(crc, raw) == Ok(es) <==> raw == Seal(crc, EncodeIndex(es)) && IndexStorable(es)
    ensures |raw| >= 4 && BigEndian(raw[|raw| - 4..]) != crc(raw[..|raw| - 4]) ==>
              DecodeIndexBlock(crc, raw) == Err(IndexChecksumMismatch)
    ensures |raw| < 4 ==> DecodeIndexBlock(crc, raw) == Err(CorruptIndex)
  {
    hide U32, GetU32, EncodeIndex, DecodeIndex, IndexStorable;
    UnsealOfSealed(crc, EncodeIndex(es));
    if IndexStorable(es) {
      DecodeEncodedIndex(es);
    }
    if |raw| >= 4 {
      UnsealCanonical(crc, raw);
      FourDigits(raw[|raw| - 4..]);
    }
    if DecodeIndexBlock(crc, raw) == Ok(es) {
      DecodeIndexCanonical(raw[..|raw| - 4]);
    }
  }

  // ----- Footer

  const FOOTER_SIZE := 40

  /** ASCII "BEACHSST" */
  const SST_MAGIC: Bytes := [0x42, 0x45, 0x41, 0x43, 0x48, 0x53, 0x53, 0x54]

  const SST_VERSION: uint32 := 1

  datatype Footer = Footer(indexOffset: uint64, indexSize: uint32, dataBlockCount: uint32, entryCount: uint64)

  /** The 36 bytes that the footer's checksum covers. */
  function FooterBody(f: Footer): (s: Bytes)
    ensures |s| == 36
  {
    SST_MAGIC + (U32(SST_VERSION) + (U64(f.indexOffset) + (U32(f.indexSize)
      + (U32(f.dataBlockCount) + U64(f.entryCount)))))
  }

  function EncodeFooter(crc: Checksum, f: Footer): (s: Bytes)
    ensures |s| == FOOTER_SIZE
  {
    Seal(crc, FooterBody(f))
  }

  function DecodeFooter(crc: Checksum, data: Bytes): Result<Footer, TableError> {
    if |data| != FOOTER_SIZE then Err(CorruptFooter)
    else if data[..8] != SST_MAGIC then Err(BadMagic)
    else if GetU32(data[8..]) != SST_VERSION then Err(UnsupportedVersion)
    else if Unseal(crc, data).None? then Err(CorruptFooter)
    else Ok(Footer(GetU64(data[12..]), GetU32(data[20..]), GetU32(data[24..]), GetU64(data[28..])))
  }

  lemma {:induction false} FooterFields(f: Footer, tail: Bytes)
    ensures var s := FooterBody(f) + tail;
            && s[..8] == SST_MAGIC && GetU32(s[8..]) == SST_VERSION
            && GetU64(s[12..]) == f.indexOffset && GetU32(s[20..]) == f.indexSize
            && GetU32(s[24..]) == f.dataBlockCount && GetU64(s[28..]) == f.entryCount
  {
    hide U32, U64, GetU32, GetU64;
    var s := FooterBody(f) + tail;
    assert s[28..] == U64(f.entryCount) + tail;
    U64RoundTrip(f.entryCount, tail);
    assert s[24..] == U32(f.dataBlockCount) + s[28..];
    U32RoundTrip(f.dataBlockCount, s[28..]);
    assert s[20..] == U32(f.indexSize) + s[24..];
    U32RoundTrip(f.indexSize, s[24..]);
    assert s[12..] == U64(f.indexOffset) + s[20..];
    U64RoundTrip(f.indexOffset, s[20..]);
    assert s[8..] == U32(SST_VERSION) + s[12..];
    U32RoundTrip(SST_VERSION, s[12..]);
    assert s[..8] == SST_MAGIC;
  }

  lemma {:induction false} FooterRoundTrip(crc: Checksum, f: Footer)
    ensures DecodeFooter(crc, EncodeFooter(crc, f)) == Ok(f)
  {
    hide U32, U64, GetU32, GetU64, Unseal, FooterBody;
    FooterFields(f, U32(crc(FooterBody(f))));
    UnsealOfSealed(crc, FooterBody(f));
  }

  /** A footer the decoder accepts is the encoding of what it returns. */
  lemma {:induction false} FooterCanonical(crc: Checksum, data: Bytes)
    requires DecodeFooter(crc, data).Ok?
    ensures EncodeFooter(crc, DecodeFooter(crc, data).value) == data
  {
    hide U32, U64, GetU32, GetU64;
    var f := DecodeFooter(crc, data).value;
    U32Canonical(data[8..]);
    U64Canonical(data[12..]);
    U32Canonical(data[20..]);
    U32Canonical(data[24..]);
    U64Canonical(data[28..]);
    U32Canonical(data[36..]);
    assert data[8..][4..] == data[12..] && data[12..][8..] == data[20..];
    assert data[20..][4..] == data[24..] && data[24..][4..] == data[28..] && data[28..][8..] == data[36..];
    assert data[36..] == U32(crc(data[..36])) + [];
    FooterSplit(data, f);
  }

  lemma {:induction false} FooterSplit(data: Bytes, f: Footer)
    requires |data| == FOOTER_SIZE && data[..8] == SST_MAGIC
    requires data[8..] == U32(SST_VERSION) + data[12..] && data[12..] == U64(f.indexOffset) + data[20..]
    requires data[20..] == U32(f.indexSize) + data[24..] && data[24..] == U32(f.dataBlockCount) + data[28..]
    requires data[28..] == U64(f.entryCount) + data[36..]
    ensures data == FooterBody(f) + data[36..]
  {
    hide U32, U64;
    var a := U32(f.dataBlockCount) + U64(f.entryCount);
    assert data[24..] == a + data[36..];
    assert data[20..] == U32(f.indexSize) + a + data[36..];
    var b := U64(f.indexOffset) + (U32(f.indexSize) + a);
    assert data[12..] == b + data[36..];
    assert data[8..] == U32(SST_VERSION) + b + data[36..];
    assert data == SST_MAGIC + data[8..];
  }

  // ----- Whole tables

  /** The data blocks of a table, one after the other. */
  function DataBytes(crc: Checksum, blocks: seq<seq<Entry>>): Bytes {
    if blocks == [] then [] else Seal(crc, EncodeEntries(blocks[0])) + DataBytes(crc, blocks[1..])
  }

  /** Data blocks are never emitted empty. */
  predicate NoneEmpty(blocks: seq<seq<Entry>>) {
    forall i :: 0 <= i < |blocks| ==> blocks[i] != []
  }

  /** One index entry per block: its last key, where it starts and how long it is, cut to their widths. */
  function IndexFrom(crc: Checksum, blocks: seq<seq<Entry>>, offset: nat): (r: seq<IndexEntry>)
    requires NoneEmpty(blocks)
    ensures |r| == |blocks|
  {
    if blocks == [] then []
    else
      var b := blocks[0];
      var size := |EncodeEntries(b)| + 4;
      [IndexEntry(b[|b| - 1].key, ToUint64(offset), ToUint32(size))] + IndexFrom(crc, blocks[1..], offset + size)
  }

  function Flatten(blocks: seq<seq<Entry>>): seq<Entry> {
    if blocks == [] then [] else blocks[0] + Flatten(blocks[1..])
  }

  function TableIndex(crc: Checksum, blocks: seq<seq<Entry>>): (r: Bytes)
    requires NoneEmpty(blocks)
  {
    Seal(crc, EncodeIndex(IndexFrom(crc, blocks, 0)))
  }

  function TableFooter(crc: Checksum, blocks: seq<seq<Entry>>): Footer
    requires NoneEmpty(blocks)
  {
    Footer(ToUint64(|DataBytes(crc, blocks)|), ToUint32(|TableIndex(crc, blocks)|),
           ToUint32(|blocks|), ToUint64(|Flatten(blocks)|))
  }

  /** [data blocks][index block][footer] */
  function TableBytes(crc: Checksum, blocks: seq<seq<Entry>>): Bytes
    requires NoneEmpty(blocks)
  {
    DataBytes(crc, blocks) + TableIndex(crc, blocks) + EncodeFooter(crc, TableFooter(crc, blocks))
  }

  lemma {:induction false} FlattenConcat(a: seq<seq<Entry>>, b: seq<seq<Entry>>)
    ensures Flatten(a + b) == Flatten(a) + Flatten(b)
  {
    if a == [] {
      assert a + b == b;
    } else {
      assert (a + b)[1..] == a[1..] + b;
      FlattenConcat(a[1..], b);
    }
  }

  lemma {:induction false} DataConcat(crc: Checksum, a: seq<seq<Entry>>, b: seq<seq<Entry>>)
    ensures DataBytes(crc, a + b) == DataBytes(crc, a) + DataBytes(crc, b)
  {
    hide EncodeEntries, Seal;
    if a == [] {
      assert a + b == b;
    } else {
      assert (a + b)[1..] == a[1..] + b;
      DataConcat(crc, a[1..], b);
      Assoc(Seal(crc, EncodeEntries(a[0])), DataBytes(crc, a[1..]), DataBytes(crc, b));
    }
  }

  lemma {:induction false} IndexFromSnoc(crc: Checksum, blocks: seq<seq<Entry>>, b: seq<Entry>, offset: nat)
    requires b != [] && NoneEmpty(blocks)
    ensures IndexFrom(crc, blocks + [b], offset)
         == IndexFrom(crc, blocks, offset)
            + [IndexEntry(b[|b| - 1].key, ToUint64(offset + |DataBytes(crc, blocks)|),
              ToUint32(|EncodeEntries(b)| + 4))]
  {
    hide EncodeEntries, ToUint64, ToUint32;
    if blocks == [] {
      assert blocks + [b] == [b] && [b][1..] == [];
    } else {
      assert (blocks + [b])[1..] == blocks[1..] + [b];
      IndexFromSnoc(crc, blocks[1..], b, offset + |EncodeEntries(blocks[0])| + 4);
    }
  }

  /** Index entries say where block i starts: right after the blocks before it, without a gap. */
  lemma {:induction false} IndexAt(crc: Checksum, blocks: seq<seq<Entry>>, offset: nat, i: nat)
    requires i < |blocks| && NoneEmpty(blocks)
    ensures var b := blocks[i];
            IndexFrom(crc, blocks, offset)[i]
            == IndexEntry(b[|b| - 1].key, ToUint64(offset + |DataBytes(crc, blocks[..i])|),
              ToUint32(|EncodeEntries(b)| + 4))
  {
    hide EncodeEntries, ToUint64, ToUint32;
    if i > 0 {
      assert blocks[..i][1..] == blocks[1..][..i - 1];
      IndexAt(crc, blocks[1..], offset + |EncodeEntries(blocks[0])| + 4, i - 1);
    }
  }

  /** footer.encode: fixed offsets in one 40-byte buffer. */
  method WriteFooter(crc: Checksum, f: Footer) returns (buf: array<byte>)
    ensures fresh(buf) && buf[..] == EncodeFooter(crc, f)
  {
    hide U32, U64;
    buf := new byte[FOOTER_SIZE];
    PutBytes(buf, 0, SST_MAGIC);
    PutUint32(buf, 8, SST_VERSION);
    PutUint64(buf, 12, f.indexOffset);
    PutUint32(buf, 20, f.indexSize);
    PutUint32(buf, 24, f.dataBlockCount);
    PutUint64(buf, 28, f.entryCount);
    assert buf[..36] == FooterBody(f);
    PutUint32(buf, 36, crc(buf[..36]));
    assert buf[..] == buf[..40];
  }

  /** buildIndexBlock: encodes every entry into one buffer and appends the checksum. */
  method BuildIndexBlock(crc: Checksum, entries: seq<IndexEntry>) returns (buf: Bytes)
    ensures buf == Seal(crc, EncodeIndex(entries))
  {
    hide U32, U64, EncodeKey, Field, EncodeIndex;
    buf := [];
    assert entries[..0] == [] && EncodeIndex([]) == [] by { EmptyIndex(); }
    for i := 0 to |entries|
      invariant buf == EncodeIndex(entries[..i])
    {
      assert entries[..i + 1] == entries[..i] + [entries[i]];
      IndexSnoc(entries[..i], entries[i]);
      var key := Encode(entries[i].lastKey);
      buf := buf + (Field(key[..]) + (U64(entries[i].offset) + U32(entries[i].size)));
    }
    assert entries[..|entries|] == entries;
    buf := buf + U32(crc(buf));
  }

  lemma {:induction false} EmptyIndex()
    ensures EncodeIndex([]) == []
  {
  }

  /** The index decoder's loop over the cursor. */
  method DecodeIndexEntries(payload: Bytes) returns (res: Result<seq<IndexEntry>, TableError>)
    ensures res == DecodeIndex(payload)
  {
    hide TakeIndexEntry;
    var br := new ByteReader(payload);
    var entries := [];
    PrependIndexTwice([], [], DecodeIndex(payload));
    while br.Remaining() > 0
      invariant br.Valid()
      invariant DecodeIndex(payload) == PrependIndex(entries, DecodeIndex(br.Rest()))
      decreases |br.Rest()|
    {
      var e := DecodeOneIndexEntry(br);
      if e.None? {
        return Err(CorruptIndex);
      }
      PrependIndexTwice(entries, [e.value], DecodeIndex(br.Rest()));
      entries := entries + [e.value];
    }
    PrependIndexTwice(entries, [], Ok([]));
    res := Ok(entries);
  }

  method DecodeOneIndexEntry(br: ByteReader) returns (e: Option<IndexEntry>)
    requires br.Valid()
    modifies br
    ensures br.Valid()
    ensures match TakeIndexEntry(old(br.Rest()))
            case Some((v, rest)) => e == Some(v) && br.Rest() == rest
            case None => e == None
  {
    hide GetU32, GetU64, DecodeKey;
    var keyLen := br.ReadUint32();
    if keyLen.None? {
      return None;
    }
    var keyBytes := br.ReadBytes(keyLen.value);
    if keyBytes.None? {
      return None;
    }
    var key := DecodeKey(keyBytes.value);
    if key.None? {
      return None;
    }
    var offset := br.ReadUint64();
    if offset.None? {
      return None;
    }
    var size := br.ReadUint32();
    if size.None? {
      return None;
    }
    e := Some(IndexEntry(key.value, offset.value, size.value));
  }
}
