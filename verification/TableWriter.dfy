/** Writing an SSTable: entries are packed into blocks up to a target size, then sealed with index and footer. */
module TableWriter {
  import opened Basics
  import opened Keys
  import opened Runs
  import opened Blocks
  import opened TableFormat

  /** Blocks already written and the entries of the block being built. */
  datatype Packed = Packed(blocks: seq<seq<Entry>>, cur: seq<Entry>)

  /** An entry that would overflow a non-empty block starts the next one. */
  function PackOne(p: Packed, e: Entry, target: nat): Packed {
    if p.cur != [] && |EncodeEntries(p.cur)| + EncodedEntrySize(e) > target then Packed(p.blocks + [p.cur], [e])
    else Packed(p.blocks, p.cur + [e])
  }

  function PackAll(es: seq<Entry>, target: nat): Packed {
    if es == [] then Packed([], []) else PackOne(PackAll(es[..|es| - 1], target), es[|es| - 1], target)
  }

  /** Close flushes the last partial block if there is one. */
  function CloseBlocks(p: Packed): seq<seq<Entry>> {
    if p.cur == [] then p.blocks else p.blocks + [p.cur]
  }

  function TableBlocks(es: seq<Entry>, target: nat): seq<seq<Entry>> {
    CloseBlocks(PackAll(es, target))
  }

  /** At most the target size, unless it holds a single entry that alone is larger. */
  predicate Bounded(block: seq<Entry>, target: nat) {
    |EncodeEntries(block)| <= target || |block| <= 1
  }

  predicate AllBounded(blocks: seq<seq<Entry>>, target: nat) {
    forall i :: 0 <= i < |blocks| ==> Bounded(blocks[i], target)
  }

  /** Packing keeps every entry once, in order and whole, and makes no empty and no avoidably large block. */
  ghost predicate WellPacked(p: Packed, es: seq<Entry>, target: nat) {
    Flatten(p.blocks) + p.cur == es && NoneEmpty(p.blocks) && AllBounded(p.blocks, target) && Bounded(p.cur, target)
  }

  lemma {:induction false} FlattenSnoc(blocks: seq<seq<Entry>>, b: seq<Entry>)
    ensures Flatten(blocks + [b]) == Flatten(blocks) + b
  {
    FlattenConcat(blocks, [b]);
    assert [b][1..] == [] && Flatten([b]) == b + [] == b;
  }

  lemma {:induction false} PackOneKeeps(p: Packed, es: seq<Entry>, e: Entry, target: nat)
    requires WellPacked(p, es, target)
    ensures WellPacked(PackOne(p, e, target), es + [e], target)
  {
    hide EncodeEntries, EncodeEntry, Flatten;
    EncodeEntriesSnoc(p.cur, e);
    FlattenSnoc(p.blocks, p.cur);
    assert Flatten(p.blocks) + p.cur + [e] == Flatten(p.blocks) + (p.cur + [e]);
    assert EncodedEntrySize(e) == |EncodeEntry(e)|;
  }

  lemma {:induction false} PackAllKeeps(es: seq<Entry>, target: nat)
    ensures WellPacked(PackAll(es, target), es, target)
  {
    if es != [] {
      hide WellPacked, PackOne, EncodeEntries;
      var n := |es| - 1;
      PackAllKeeps(es[..n], target);
      PackOneKeeps(PackAll(es[..n], target), es[..n], es[n], target);
      assert es == es[..n] + [es[n]];
    }
  }

  /** The blocks of a table: nothing lost or split, none empty, each within the bound. */
  lemma {:induction false} TableBlocksKeep(es: seq<Entry>, target: nat)
    ensures var blocks := TableBlocks(es, target);
            Flatten(blocks) == es && NoneEmpty(blocks) && AllBounded(blocks, target)
  {
    PackAllKeeps(es, target);
    var p := PackAll(es, target);
    FlattenSnoc(p.blocks, p.cur);
    assert p.cur == [] ==> Flatten(p.blocks) + p.cur == Flatten(p.blocks);
  }

  /** No avoidable split: each block but the last is so full that the next entry would have gone over the target. */
  predicate Tight(blocks: seq<seq<Entry>>, target: nat)
    requires NoneEmpty(blocks)
  {
    forall i :: 0 <= i < |blocks| - 1 ==> |EncodeEntries(blocks[i])| + |EncodeEntry(blocks[i + 1][0])| > target
  }

  /** While packing: the blocks written and the one being built are tight, and no block is written in advance. */
  ghost predicate TightSoFar(p: Packed, target: nat) {
    && NoneEmpty(p.blocks) && (p.cur == [] ==> p.blocks == [])
    && (p.cur != [] ==> Tight(p.blocks + [p.cur], target))
  }

  lemma {:induction false} PackOneTight(p: Packed, e: Entry, target: nat)
    requires TightSoFar(p, target)
    ensures TightSoFar(PackOne(p, e, target), target)
  {
    hide EncodeEntries, EncodeEntry;
    var q := PackOne(p, e, target);
    var before, after := p.blocks + [p.cur], q.blocks + [q.cur];
    if p.cur != [] {
      forall i | 0 <= i < |after| - 1 ensures |EncodeEntries(after[i])| + |EncodeEntry(after[i + 1][0])| > target {
        if i < |before| - 1 {
          assert after[i] == before[i] && after[i + 1][0] == before[i + 1][0];
        }
      }
    }
  }

  lemma {:induction false} PackAllTight(es: seq<Entry>, target: nat)
    ensures TightSoFar(PackAll(es, target), target)
  {
    if es != [] {
      hide TightSoFar, PackOne;
      PackAllTight(es[..|es| - 1], target);
      PackOneTight(PackAll(es[..|es| - 1], target), es[|es| - 1], target);
    }
  }

  /** A division of these entries into blocks that the target allows, with no avoidable split. */
  predicate Divides(blocks: seq<seq<Entry>>, es: seq<Entry>, target: nat) {
    Flatten(blocks) == es && NoneEmpty(blocks) && AllBounded(blocks, target) && Tight(blocks, target)
  }

  lemma {:induction false} TableBlocksDivide(es: seq<Entry>, target: nat)
    ensures Divides(TableBlocks(es, target), es, target)
  {
    hide Flatten, EncodeEntries, EncodeEntry, PackAll, AllBounded;
    TableBlocksKeep(es, target);
    PackAllTight(es, target);
  }

  /** Two such divisions have the same first block: the longer one would be over the target. */
  lemma {:induction false} SameFirstBlock(a: seq<seq<Entry>>, b: seq<seq<Entry>>, es: seq<Entry>, target: nat)
    requires Divides(a, es, target) && Divides(b, es, target) && a != [] && b != []
    ensures |a[0]| >= |b[0]|
  {
    hide EncodeEntries, EncodeEntry;
    var n := |a[0]|;
    assert es == a[0] + Flatten(a[1..]) && es == b[0] + Flatten(b[1..]);
    if n < |b[0]| {
      assert a[0] == b[0][..n] by { assert a[0] == es[..n] && b[0] == es[..|b[0]|]; }
      assert Flatten(a[1..]) != [] && a[1..] != [];
      assert es[n] == a[1][0] by { assert Flatten(a[1..]) == a[1] + Flatten(a[1..][1..]); }
      assert es[n] == b[0][n];
      EncodeEntriesSnoc(b[0][..n], b[0][n]);
      assert b[0][..n + 1] == b[0][..n] + [b[0][n]] && b[0] == b[0][..n + 1] + b[0][n + 1..];
      EncodeEntriesConcat(b[0][..n + 1], b[0][n + 1..]);
    }
  }

  /** The packing is determined: there is only one division of the entries that the target allows and that is tight. */
  lemma {:induction false} OnlyDivision(blocks: seq<seq<Entry>>, es: seq<Entry>, target: nat)
    ensures Divides(blocks, es, target) <==> blocks == TableBlocks(es, target)
  {
    hide Divides, TableBlocks;
    TableBlocksDivide(es, target);
    if Divides(blocks, es, target) {
      SameDivision(blocks, TableBlocks(es, target), es, target);
    }
  }

  lemma {:induction false} SameDivision(a: seq<seq<Entry>>, b: seq<seq<Entry>>, es: seq<Entry>, target: nat)
    requires Divides(a, es, target) && Divides(b, es, target)
    ensures a == b
    decreases |es|
  {
    hide EncodeEntries, EncodeEntry;
    if a != [] && b != [] {
      SameFirstBlock(a, b, es, target);
      SameFirstBlock(b, a, es, target);
      var n := |a[0]|;
      assert a[0] == es[..n] && b[0] == es[..n];
      assert Flatten(a[1..]) == es[n..] && Flatten(b[1..]) == es[n..];
      RestDivides(a, es, target);
      RestDivides(b, es, target);
      SameDivision(a[1..], b[1..], es[n..], target);
      assert a == [a[0]] + a[1..] && b == [b[0]] + b[1..];
    }
  }

  lemma {:induction false} RestDivides(a: seq<seq<Entry>>, es: seq<Entry>, target: nat)
    requires Divides(a, es, target) && a != []
    ensures a[0] != [] && |a[0]| <= |es| && Divides(a[1..], es[|a[0]|..], target)
  {
    hide EncodeEntries, EncodeEntry;
    assert es == a[0] + Flatten(a[1..]);
    assert es[|a[0]|..] == Flatten(a[1..]);
  }

  class Writer {
    const crc: Checksum
    const targetBlockSize: nat
    const currentBlock: BlockBuilder
    var file: Bytes
    var indexEntries: seq<IndexEntry>
    var offset: uint64
    var entryCount: uint64
    var dataBlockCount: uint32
    var lastKey: InternalKey
    var hasEntries: bool
    var closed: bool

    /** The entries accepted so far, as they have been packed. */
    ghost var packed: Packed

    ghost function Entries(): seq<Entry>
      reads this
    {
      Flatten(packed.blocks) + packed.cur
    }

    ghost predicate Valid()
      reads this, currentBlock
    {
      && NoneEmpty(packed.blocks)
      && StrictlySorted(Entries())
      && hasEntries == (Entries() != [])
      && (hasEntries ==> lastKey == Entries()[|Entries()| - 1].key)
      && entryCount == ToUint64(|Entries()|)
      && (!closed ==> OnDisk())
    }

    /** While the table is being written, the file holds exactly the flushed blocks and the index describes them. */
    ghost predicate OnDisk()
      requires NoneEmpty(packed.blocks)
      reads this, currentBlock
    {
      && currentBlock.Valid() && currentBlock.entries == packed.cur
      && file == DataBytes(crc, packed.blocks)
      && indexEntries == IndexFrom(crc, packed.blocks, 0)
      && offset == ToUint64(|file|)
      && dataBlockCount == ToUint32(|packed.blocks|)
    }

    constructor (crc: Checksum, blockSize: nat)
      ensures Valid() && !closed && packed == Packed([], []) && Entries() == []
      ensures this.crc == crc && targetBlockSize == blockSize && fresh(currentBlock)
    {
      hide EncodeEntries, StrictlySorted, ToUint64, ToUint32;
      EmptyIsSorted();
      this.crc, targetBlockSize := crc, blockSize;
      currentBlock := new BlockBuilder();
      file, indexEntries, offset, entryCount, dataBlockCount := [], [], 0, 0, 0;
      lastKey, hasEntries, closed := InternalKey([], 0, 0), false, false;
      packed := Packed([], []);
    }

    /** Refuses keys that are not strictly above the last one; otherwise packs the entry. */
    method Add(key: InternalKey, value: Bytes) returns (r: Result<(), TableError>)
      requires Valid()
      modifies this, currentBlock
      ensures Valid() && closed == old(closed)
      ensures r == if closed then Err(WriterClosed)
                   else if old(hasEntries) && Compare(old(lastKey), key) >= 0 then Err(OutOfOrderKey)
                   else Ok(())
      ensures r.Ok? ==> packed == PackOne(old(packed), Entry(key, value), targetBlockSize)
      ensures r.Ok? ==> Entries() == old(Entries()) + [Entry(key, value)]
      ensures r.Err? ==> packed == old(packed) && file == old(file)
    {
      hide EncodeEntries, EncodeEntry, Flatten, DataBytes, IndexFrom, Compare, ToUint64, ToUint32, StrictlySorted;
      if closed {
        return Err(WriterClosed);
      }
      if hasEntries && Compare(lastKey, key) >= 0 {
        return Err(OutOfOrderKey);
      }
      StrictSnoc(Entries(), Entry(key, value));
      if currentBlock.hasEntries && |currentBlock.buf| + EncodedEntrySize(Entry(key, value)) > targetBlockSize {
        FlushCurrentBlock();
      }
      AddToBlock(key, value);
      r := Ok(());
    }

    /** Puts an entry into the block being built. */
    method AddToBlock(key: InternalKey, value: Bytes)
      requires Valid() && !closed && StrictlySorted(Entries() + [Entry(key, value)])
      modifies this, currentBlock
      ensures Valid() && !closed
      ensures packed == Packed(old(packed.blocks), old(packed.cur) + [Entry(key, value)])
      ensures Entries() == old(Entries()) + [Entry(key, value)]
    {
      hide EncodeEntries, EncodeEntry, Flatten, DataBytes, IndexFrom, Compare, ToUint64, ToUint32, StrictlySorted;
      ghost var before, e := Entries(), Entry(key, value);
      BumpUint64(|before|);
      currentBlock.Add(key, value);
      Assoc(Flatten(packed.blocks), packed.cur, [e]);
      packed := Packed(packed.blocks, packed.cur + [e]);
      lastKey, hasEntries, entryCount := key, true, ToUint64(entryCount + 1);
    }

    /** Seals the block being built, writes it and records it in the index. */
    method FlushCurrentBlock()
      requires Valid() && !closed && packed.cur != []
      modifies this, currentBlock
      ensures Valid() && !closed && packed == Packed(old(packed.blocks) + [old(packed.cur)], [])
      ensures Entries() == old(Entries()) && hasEntries == old(hasEntries) && lastKey == old(lastKey)
      ensures entryCount == old(entryCount)
    {
      hide EncodeEntries, Flatten, DataBytes, IndexFrom, ToUint64, ToUint32, StrictlySorted;
      ghost var blocks, b := packed.blocks, packed.cur;
      var blockBytes := currentBlock.Finish(crc);
      FlushedBlock(crc, blocks, b);
      BumpUint32(|blocks|);
      AddUint64(|file|, |blockBytes|);
      FlattenSnoc(blocks, b);
      file := file + blockBytes;
      indexEntries := indexEntries + [IndexEntry(currentBlock.lastKey.value, offset, ToUint32(|blockBytes|))];
      offset := ToUint64(offset + |blockBytes|);
      dataBlockCount := ToUint32(dataBlockCount + 1);
      currentBlock.Reset();
      packed := Packed(blocks + [b], []);
      assert Flatten(blocks) + b + [] == Flatten(blocks) + b;
    }

    /** Writes index and footer behind the data blocks. */
    method WriteTail()
      requires Valid() && !closed && packed.cur == []
      modifies this`file
      ensures file == TableBytes(crc, packed.blocks)
    {
      hide EncodeEntries, Flatten, DataBytes, IndexFrom, ToUint64, ToUint32, EncodeFooter, StrictlySorted, NoneEmpty;
      var indexBlock := BuildIndexBlock(crc, indexEntries);
      var footer := WriteFooter(crc, Footer(offset, ToUint32(|indexBlock|), dataBlockCount, entryCount));
      assert Flatten(packed.blocks) + [] == Flatten(packed.blocks);
      file := file + indexBlock;
      file := file + footer[..];
    }

    /** Flushes the last block, then writes index and footer: the file is the table of the packed blocks. */
    method Close() returns (r: Result<(), TableError>)
      requires Valid()
      modifies this, currentBlock
      ensures Valid() && closed && Entries() == old(Entries())
      ensures r == if old(closed) then Err(WriterClosed) else Ok(())
      ensures r.Ok? ==> NoneEmpty(CloseBlocks(old(packed))) && file == TableBytes(crc, CloseBlocks(old(packed)))
      ensures r.Err? ==> file == old(file)
    {
      hide EncodeEntries, Flatten, DataBytes, IndexFrom, ToUint64, ToUint32, TableBytes, StrictlySorted;
      if closed {
        return Err(WriterClosed);
      }
      if currentBlock.hasEntries {
        FlushCurrentBlock();
      }
      assert packed.blocks == CloseBlocks(old(packed));
      WriteTail();
      closed := true;
      r := Ok(());
    }
  }

  /** The options' default. */
  const DEFAULT_BLOCK_SIZE := 4096

  /** Refuses a block size that is not usable. */
  method NewWriter(crc: Checksum, blockSize: int) returns (r: Result<Writer, TableError>)
    ensures r.Err? <==> blockSize <= 0
    ensures r.Err? ==> r.error == InvalidBlockSize
    ensures r.Ok? ==>
              && fresh(r.value) && fresh(r.value.currentBlock) && r.value.Valid() && !r.value.closed
              && r.value.packed == Packed([], []) && r.value.crc == crc && r.value.targetBlockSize == blockSize
  {
    if blockSize <= 0 {
      return Err(InvalidBlockSize);
    }
    var w := new Writer(crc, blockSize);
    r := Ok(w);
  }

  lemma {:induction false} EmptyIsSorted()
    ensures StrictlySorted([]) && ToUint64(0) == 0 && ToUint32(0) == 0
  {
  }

  lemma {:induction false} BumpUint64(n: nat)
    ensures ToUint64(ToUint64(n) + 1) == ToUint64(n + 1)
  {
  }

  lemma {:induction false} AddUint64(a: nat, b: nat)
    ensures ToUint64(ToUint64(a) + b) == ToUint64(a + b)
  {
  }

  /** Appending an entry above the last one keeps a list strictly sorted. */
  lemma {:induction false} StrictSnoc(es: seq<Entry>, e: Entry)
    requires StrictlySorted(es)
    requires es != [] ==> Compare(es[|es| - 1].key, e.key) < 0
    ensures StrictlySorted(es + [e])
  {
    hide Compare;
    forall i | 0 <= i < |es| ensures Compare(es[i].key, e.key) < 0 {
      if i < |es| - 1 {
        CompareTransitive(es[i].key, es[|es| - 1].key, e.key);
      }
    }
  }

  /** Writing one more block extends data and index as the table layout says. */
  lemma {:induction false} FlushedBlock(crc: Checksum, blocks: seq<seq<Entry>>, b: seq<Entry>)
    requires NoneEmpty(blocks) && b != []
    ensures NoneEmpty(blocks + [b])
    ensures DataBytes(crc, blocks + [b]) == DataBytes(crc, blocks) + Seal(crc, EncodeEntries(b))
    ensures IndexFrom(crc, blocks + [b], 0)
         == IndexFrom(crc, blocks, 0)
            + [IndexEntry(b[|b| - 1].key, ToUint64(|DataBytes(crc, blocks)|), ToUint32(|Seal(crc, EncodeEntries(b))|))]
  {
    hide EncodeEntries, ToUint32, ToUint64;
    DataConcat(crc, blocks, [b]);
    assert [b][1..] == [] && DataBytes(crc, [b]) == Seal(crc, EncodeEntries(b)) + [];
    assert Seal(crc, EncodeEntries(b)) + [] == Seal(crc, EncodeEntries(b));
    IndexFromSnoc(crc, blocks, b, 0);
  }

  /** The last keys of consecutive blocks strictly increase. */
  lemma {:induction false} LastKeysIncrease(blocks: seq<seq<Entry>>, i: nat, j: nat)
    requires NoneEmpty(blocks) && StrictlySorted(Flatten(blocks)) && i < j < |blocks|
    ensures Compare(blocks[i][|blocks[i]| - 1].key, blocks[j][|blocks[j]| - 1].key) < 0
  {
    hide Compare, StrictlySorted;
    var first, rest := blocks[0], blocks[1..];
    StrictlySortedConcat(first, Flatten(rest));
    if i > 0 {
      LastKeysIncrease(rest, i - 1, j - 1);
    } else {
      InFlatten(rest, j - 1, |blocks[j]| - 1);
    }
  }

  /** An entry of a block is an entry of the table. */
  lemma {:induction false} InFlatten(blocks: seq<seq<Entry>>, j: nat, k: nat)
    requires j < |blocks| && k < |blocks[j]|
    ensures blocks[j][k] in Flatten(blocks)
  {
    if j > 0 {
      InFlatten(blocks[1..], j - 1, k);
    }
  }

  lemma {:induction false} Consecutive(es: seq<Entry>, i: nat)
    requires StrictlySorted(es) && 0 < i < |es|
    ensures Compare(es[..i][i - 1].key, es[i].key) < 0
  {
  }

  lemma {:induction false} NothingPacked(target: nat)
    ensures PackAll([], target) == Packed([], [])
  {
  }

  lemma {:induction false} PackMore(es: seq<Entry>, p: nat, target: nat)
    requires p < |es|
    ensures es[..p] + [es[p]] == es[..p + 1]
    ensures PackAll(es[..p + 1], target) == PackOne(PackAll(es[..p], target), es[p], target)
  {
    assert es[..p + 1][..p] == es[..p];
  }

  lemma {:induction false} WriterKnows(w: Writer)
    requires w.Valid()
    ensures StrictlySorted(w.Entries()) && w.hasEntries == (w.Entries() != [])
    ensures w.hasEntries ==> w.lastKey == w.Entries()[|w.Entries()| - 1].key
  {
  }

  /** Adds a whole strictly increasing list and closes: the file is the table of that list. */
  method WriteTable(crc: Checksum, es: seq<Entry>, blockSize: nat) returns (file: Bytes)
    requires StrictlySorted(es)
    ensures NoneEmpty(TableBlocks(es, blockSize)) && file == TableBytes(crc, TableBlocks(es, blockSize))
  {
    hide Compare, TableBytes, StrictlySorted, PackOne, PackAll, CloseBlocks, Writer.Valid, Writer.Entries;
    NothingPacked(blockSize);
    var w := new Writer(crc, blockSize);
    for i := 0 to |es|
      invariant w.Valid() && !w.closed && w.crc == crc && w.targetBlockSize == blockSize && fresh(w) &&
          fresh(w.currentBlock)
      invariant w.packed == PackAll(es[..i], blockSize) && w.Entries() == es[..i]
    {
      WriterKnows(w);
      PackMore(es, i, blockSize);
      if i > 0 {
        Consecutive(es, i);
      }
      var r := w.Add(es[i].key, es[i].value);
    }
    assert es[..|es|] == es;
    var r := w.Close();
    file := w.file;
  }
}
