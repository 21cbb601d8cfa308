/**
 * The documented byte layouts: which bytes the encoders produce, offset by offset, with numbers spelled most
 * significant byte first.
 */
module Layouts {
  import opened Basics
  import opened Coding
  import opened Keys
  import opened Runs
  import B = Batches
  import opened Blocks
  import opened TableFormat
  import E = VersionEdits

  /** The bytes from an offset on spell this 32-bit number. */
  predicate U32At(s: Bytes, at: nat, v: nat) {
    at + 4 <= |s| && BigEndian(s[at..at + 4]) == v
  }

  predicate U64At(s: Bytes, at: nat, v: nat) {
    at + 8 <= |s| && BigEndian(s[at..at + 8]) == v
  }

  predicate BytesAt(s: Bytes, at: nat, b: Bytes) {
    at + |b| <= |s| && s[at..at + |b|] == b
  }

  /** A length and then that many bytes. */
  predicate FieldAt(s: Bytes, at: nat, b: Bytes) {
    U32At(s, at, |b|) && BytesAt(s, at + 4, b)
  }

  predicate KeyAt(s: Bytes, at: nat, k: InternalKey) {
    var n := |k.userKey|;
    U32At(s, at, n + 9) && BytesAt(s, at + 4, k.userKey) && U64At(s, at + 4 + n, k.seqno)
    && at + 12 + n < |s| && s[at + 12 + n] == k.kind
  }

  // ----- Pieces inside a longer string

  lemma {:induction false} Inside(a: Bytes, b: Bytes, c: Bytes)
    ensures BytesAt(a + (b + c), |a|, b)
  {
    assert (a + (b + c))[|a|..|a| + |b|] == b;
  }

  lemma {:induction false} U32Inside(a: Bytes, v: uint32, c: Bytes)
    ensures U32At(a + (U32(v) + c), |a|, v)
  {
    U32IsBigEndian(v);
    hide U32, BigEndian;
    Inside(a, U32(v), c);
  }

  lemma {:induction false} U64Inside(a: Bytes, v: uint64, c: Bytes)
    ensures U64At(a + (U64(v) + c), |a|, v)
  {
    U64IsBigEndian(v);
    hide U64, BigEndian;
    Inside(a, U64(v), c);
  }

  lemma {:induction false} FieldInside(a: Bytes, b: Bytes, c: Bytes)
    requires |b| < 0x1_0000_0000
    ensures FieldAt(a + (Field(b) + c), |a|, b)
  {
    hide U32, BigEndian;
    U32Inside(a, |b|, b + c);
    Assoc(U32(|b|), b, c);
    Inside(a + U32(|b|), b, c);
    Assoc(a, U32(|b|), b + c);
  }

  lemma {:induction false} KeyInside(a: Bytes, k: InternalKey, c: Bytes)
    requires |k.userKey| + 9 < 0x1_0000_0000
    ensures KeyAt(a + (Field(EncodeKey(k)) + c), |a|, k)
  {
    FieldInside(a, EncodeKey(k), c);
    KeyLayout(k);
    hide U32, U64, BigEndian, EncodeKey, Field;
    var s, at, n, e := a + (Field(EncodeKey(k)) + c), |a| + 4, |k.userKey|, EncodeKey(k);
    assert s[at..at + |e|] == e;
    assert s[at..at + n] == e[..n] && s[at + n..at + n + 8] == e[n..n + 8] && s[at + n + 8] == e[n + 8];
  }

  // ----- Keys and entries

  /** [user key][sequence number: 8][kind: 1], where 1 is a put and 2 a delete. */
  lemma {:induction false} KeyLayout(k: InternalKey)
    ensures var s, n := EncodeKey(k), |k.userKey|;
            |s| == n + 9 && s[..n] == k.userKey && U64At(s, n, k.seqno) && s[n + 8] == k.kind
    ensures ValidKind(k.kind) <==> k.kind == 1 || k.kind == 2
    ensures KIND_PUT == 1 && KIND_DELETE == 2
  {
    hide U64, BigEndian;
    U64Inside(k.userKey, k.seqno, [k.kind]);
    Assoc(k.userKey, U64(k.seqno), [k.kind]);
  }

  /** [key length: 4][key][value length: 4][value] */
  lemma {:induction false} EntryLayout(e: Entry)
    requires Storable(e)
    ensures var s, n := EncodeEntry(e), |e.key.userKey|;
            && |s| == 17 + n + |e.value|
            && KeyAt(s, 0, e.key) && FieldAt(s, 13 + n, e.value)
  {
    hide Field, EncodeKey, BigEndian;
    var key, value := Field(EncodeKey(e.key)), Field(e.value);
    KeyInside([], e.key, value);
    FieldInside(key, e.value, []);
    assert [] + (key + value) == key + value && key + (value + []) == key + value;
  }

  /** [key length: 4][last key][offset: 8][size: 4] */
  lemma {:induction false} IndexEntryLayout(e: IndexEntry)
    requires |e.lastKey.userKey| + 9 < 0x1_0000_0000
    ensures var s, n := EncodeIndexEntry(e), |e.lastKey.userKey|;
            |s| == 25 + n && KeyAt(s, 0, e.lastKey) && U64At(s, 13 + n, e.offset) && U32At(s, 21 + n, e.size)
  {
    hide Field, EncodeKey, BigEndian, U32, U64;
    var key := Field(EncodeKey(e.lastKey));
    KeyInside([], e.lastKey, U64(e.offset) + U32(e.size));
    U64Inside(key, e.offset, U32(e.size));
    U32Inside(key + U64(e.offset), e.size, []);
    assert U32(e.size) + [] == U32(e.size);
    Assoc(key, U64(e.offset), U32(e.size));
    assert [] + EncodeIndexEntry(e) == EncodeIndexEntry(e);
  }

  /** magic, version 1, index offset, index size, block count, entry count, checksum of the 36 bytes before it. */
  lemma {:induction false} FooterLayout(crc: Checksum, f: Footer)
    ensures var s := EncodeFooter(crc, f);
            && |s| == 40 && (forall i :: 0 <= i < 8 ==> s[i] as char == "BEACHSST"[i])
            && U32At(s, 8, 1) && U64At(s, 12, f.indexOffset) && U32At(s, 20, f.indexSize)
            && U32At(s, 24, f.dataBlockCount) && U64At(s, 28, f.entryCount) && U32At(s, 36, crc(s[..36]))
  {
    hide U32, U64, GetU32, GetU64, BigEndian, FooterBody, Seal;
    var s := EncodeFooter(crc, f);
    FooterRoundTrip(crc, f);
    FooterReads(crc, s);
  }

  /** What the footer decoder accepts, and the reason it gives for anything else of the right length. */
  lemma {:induction false} FooterReads(crc: Checksum, s: Bytes)
    requires |s| == 40
    ensures DecodeFooter(crc, s) == Err(BadMagic) <==> exists i :: 0 <= i < 8 && s[i] as char != "BEACHSST"[i]
    ensures DecodeFooter(crc, s) != Err(BadMagic) ==>
              && (DecodeFooter(crc, s) == Err(UnsupportedVersion) <==> !U32At(s, 8, 1))
              && (U32At(s, 8, 1) ==> (DecodeFooter(crc, s) == Err(CorruptFooter) <==> !U32At(s, 36, crc(s[..36]))))
              && (U32At(s, 8, 1) && U32At(s, 36, crc(s[..36])) ==>
                    && DecodeFooter(crc, s).Ok?
                    && var f := DecodeFooter(crc, s).value;
                       && U64At(s, 12, f.indexOffset) && U32At(s, 20, f.indexSize)
                       && U32At(s, 24, f.dataBlockCount) && U64At(s, 28, f.entryCount))
  {
    FourAt(s, 8);
    FourAt(s, 20);
    FourAt(s, 24);
    FourAt(s, 36);
    EightAt(s, 12);
    EightAt(s, 28);
    hide GetU32, GetU64, BigEndian;
    SstMagic(s[..8]);
  }

  lemma {:induction false} FourAt(s: Bytes, at: nat)
    requires at + 4 <= |s|
    ensures BigEndian(s[at..at + 4]) == GetU32(s[at..])
  {
    FourDigits(s[at..at + 4]);
  }

  lemma {:induction false} EightAt(s: Bytes, at: nat)
    requires at + 8 <= |s|
    ensures BigEndian(s[at..at + 8]) == GetU64(s[at..])
  {
    FourDigits(s[at..at + 4]);
    FourDigits(s[at + 4..at + 8]);
    FourMore(s[at..at + 4], s[at + 4..at + 8]);
    assert s[at..at + 8] == s[at..at + 4] + s[at + 4..at + 8];
    assert s[at..][4..] == s[at + 4..];
  }

  lemma {:induction false} SstMagic(b: Bytes)
    requires |b| == 8
    ensures b == SST_MAGIC <==> forall i :: 0 <= i < 8 ==> b[i] as char == "BEACHSST"[i]
  {
    var m := SST_MAGIC;
    assert forall i :: 0 <= i < 8 ==> m[i] as char == "BEACHSST"[i] by {
      assert m[0] as char == 'B' && m[1] as char == 'E' && m[2] as char == 'A' && m[3] as char == 'C';
      assert m[4] as char == 'H' && m[5] as char == 'S' && m[6] as char == 'S' && m[7] as char == 'T';
    }
    if forall i :: 0 <= i < 8 ==> b[i] as char == "BEACHSST"[i] {
      assert forall i :: 0 <= i < 8 ==> b[i] as char == m[i] as char;
      assert forall i :: 0 <= i < 8 ==> b[i] == m[i];
    }
  }

  // ----- Batches

  /** version 1, three zero bytes, the number of operations, the operations back to back. */
  lemma {:induction false} BatchLayout(ops: seq<B.Operation>)
    requires |ops| < 0x1_0000_0000
    ensures var s := B.EncodeBatch(ops);
            |s| >= 8 && s[..4] == [1, 0, 0, 0] && U32At(s, 4, |ops|) && s[8..] == B.EncodeOps(ops)
  {
    hide U32, BigEndian, B.EncodeOps;
    U32Inside([1, 0, 0, 0], |ops|, B.EncodeOps(ops));
    Assoc([1, 0, 0, 0], U32(|ops|), B.EncodeOps(ops));
  }

  /** 1 for a put or 2 for a delete, the key as a field, and for a put the value as another. */
  lemma {:induction false} OperationLayout(op: B.Operation)
    requires B.Fits(op)
    ensures var s, n := B.EncodeOp(op), |op.key|;
            match op.opType
            case OpPut => |s| == 9 + n + |op.value| && s[0] == 1 && FieldAt(s, 1, op.key) && FieldAt(s, 5 + n, op.value)
            case OpDelete => |s| == 5 + n && s[0] == 2 && FieldAt(s, 1, op.key)
  {
    hide Field, BigEndian;
    var first, value := [B.OpByte(op.opType)], if op.opType == B.OpPut then Field(op.value) else [];
    FieldInside(first, op.key, value);
    if op.opType == B.OpPut {
      FieldInside(first + Field(op.key), op.value, []);
      assert value + [] == value;
      Assoc(first, Field(op.key), value);
    }
  }

  // ----- Manifest edits

  /** 1, level: 4, file id: 8, size: 8, then the two keys as fields. */
  lemma {:induction false} AddedFileLayout(f: E.FileMetadata)
    requires |f.smallestKey.userKey| + 9 < 0x1_0000_0000 && |f.largestKey.userKey| + 9 < 0x1_0000_0000
    ensures var s, n := E.EncodeAdded(f), |f.smallestKey.userKey|;
            && |s| == 47 + n + |f.largestKey.userKey|
            && s[0] == 1 && U32At(s, 1, f.level) && U64At(s, 5, f.fileID) && U64At(s, 13, f.size)
            && KeyAt(s, 21, f.smallestKey) && KeyAt(s, 34 + n, f.largestKey)
  {
    hide U32, U64, BigEndian, Field, EncodeKey;
    var a, b := Field(EncodeKey(f.smallestKey)), Field(EncodeKey(f.largestKey));
    var t1 := U64(f.fileID) + (U64(f.size) + (a + b));
    U32Inside([1], f.level, t1);
    U64Inside([1] + U32(f.level), f.fileID, U64(f.size) + (a + b));
    U64Inside([1] + U32(f.level) + U64(f.fileID), f.size, a + b);
    KeyInside([1] + U32(f.level) + U64(f.fileID) + U64(f.size), f.smallestKey, b);
    KeyInside([1] + U32(f.level) + U64(f.fileID) + U64(f.size) + a, f.largestKey, []);
    assert b + [] == b;
    Assoc([1], U32(f.level), t1);
    Assoc([1] + U32(f.level), U64(f.fileID), U64(f.size) + (a + b));
    Assoc([1] + U32(f.level) + U64(f.fileID), U64(f.size), a + b);
    Assoc([1] + U32(f.level) + U64(f.fileID) + U64(f.size), a, b);
  }

  /** The decoder's cap on a field is 64 KiB: exactly the longer ones are refused, before their bytes are read. */
  lemma {:induction false} FieldCap(b: Bytes, rest: Bytes)
    requires |b| < 0x1_0000_0000
    ensures |b| <= 65536 ==> E.TakeCapped(Field(b) + rest) == Ok((b, rest))
    ensures |b| > 65536 ==> E.TakeCapped(Field(b) + rest) == Err(E.EditFieldTooLarge)
  {
    hide U32, GetU32;
    Assoc(U32(|b|), b, rest);
    TakeU32Of(|b|, b + rest);
    if |b| <= 65536 {
      E.TakeCappedOf(b, rest);
    }
  }

  lemma {:induction false} KeyCap(k: InternalKey)
    ensures E.KeyStorable(k) <==> (k.kind == 1 || k.kind == 2) && |k.userKey| + 9 <= 65536
  {
  }

  /** 2, level: 4, file id: 8. */
  lemma {:induction false} DeletedFileLayout(d: E.DeletedFile)
    ensures var s := E.EncodeDeleted(d);
            |s| == 13 && s[0] == 2 && U32At(s, 1, d.level) && U64At(s, 5, d.fileID)
  {
    hide U32, U64, BigEndian;
    U32Inside([2], d.level, U64(d.fileID));
    U64Inside([2] + U32(d.level), d.fileID, []);
    assert U64(d.fileID) + [] == U64(d.fileID);
    Assoc([2], U32(d.level), U64(d.fileID));
  }

  /** A counter is its tag - 3 next file id, 4 last sequence, 5 log number - and eight bytes, if it is set. */
  lemma {:induction false} CounterLayout(e: E.VersionEdit)
    ensures var next := E.EncodeCounter(E.TAG_NEXT_FILE_ID, e.hasNextFileID, e.nextFileID);
            if e.hasNextFileID then |next| == 9 && next[0] == 3 && U64At(next, 1, e.nextFileID) else next == []
    ensures var last := E.EncodeCounter(E.TAG_LAST_SEQUENCE, e.hasLastSequence, e.lastSequence);
            if e.hasLastSequence then |last| == 9 && last[0] == 4 && U64At(last, 1, e.lastSequence) else last == []
    ensures var log := E.EncodeCounter(E.TAG_LOG_NUMBER, e.hasLogNumber, e.logNumber);
            if e.hasLogNumber then |log| == 9 && log[0] == 5 && U64At(log, 1, e.logNumber) else log == []
  {
    hide U64, BigEndian;
    U64Inside([3], e.nextFileID, []);
    U64Inside([4], e.lastSequence, []);
    U64Inside([5], e.logNumber, []);
    assert U64(e.nextFileID) + [] == U64(e.nextFileID) && U64(e.lastSequence) + [] == U64(e.lastSequence);
    assert U64(e.logNumber) + [] == U64(e.logNumber);
  }

  /** The counters that are set, in the order of their tags, then the deletes, thirteen bytes each, then the adds. */
  lemma {:induction false} EditLayout(e: E.VersionEdit)
    ensures var s := E.EncodeEdit(e);
            var a := if e.hasNextFileID then 9 else 0;
            var b := a + if e.hasLastSequence then 9 else 0;
            var c := b + if e.hasLogNumber then 9 else 0;
            var d := c + 13 * |e.deletedFiles|;
            && d <= |s|
            && (e.hasNextFileID ==> s[0] == 3 && U64At(s, 1, e.nextFileID))
            && (e.hasLastSequence ==> s[a] == 4 && U64At(s, a + 1, e.lastSequence))
            && (e.hasLogNumber ==> s[b] == 5 && U64At(s, b + 1, e.logNumber))
            && s[c..d] == E.EncodeDeletes(e.deletedFiles) && s[d..] == E.EncodeAdds(e.addedFiles)
  {
    CounterLayout(e);
    E.DeletesSize(e.deletedFiles);
    hide U64At, E.EncodeCounter, E.EncodeDeletes, E.EncodeAdds;
    var s := E.EncodeEdit(e);
    var next := E.EncodeCounter(E.TAG_NEXT_FILE_ID, e.hasNextFileID, e.nextFileID);
    var last := E.EncodeCounter(E.TAG_LAST_SEQUENCE, e.hasLastSequence, e.lastSequence);
    var log := E.EncodeCounter(E.TAG_LOG_NUMBER, e.hasLogNumber, e.logNumber);
    FiveParts(next, last, log, E.EncodeDeletes(e.deletedFiles), E.EncodeAdds(e.addedFiles));
    NumberInside(s, 0, next, e.nextFileID);
    NumberInside(s, |next|, last, e.lastSequence);
    NumberInside(s, |next| + |last|, log, e.logNumber);
  }

  lemma {:induction false} FiveParts(a: Bytes, b: Bytes, c: Bytes, d: Bytes, e: Bytes)
    ensures var s, at := a + (b + (c + (d + e))), |a| + |b| + |c|;
            && BytesAt(s, 0, a) && BytesAt(s, |a|, b) && BytesAt(s, |a| + |b|, c)
            && at + |d| <= |s| && s[at..at + |d|] == d && s[at + |d|..] == e
  {
    hide BytesAt;
    var s := a + (b + (c + (d + e)));
    Inside([], a, b + (c + (d + e)));
    assert [] + s == s;
    Inside(a, b, c + (d + e));
    Inside(a + b, c, d + e);
    Assoc(a, b, c + (d + e));
    Assoc(a + b, c, d + e);
    LastParts(a + b + c, d, e);
  }

  lemma {:induction false} LastParts(a: Bytes, b: Bytes, c: Bytes)
    ensures var s := a + (b + c); s[|a|..|a| + |b|] == b && s[|a| + |b|..] == c
  {
  }

  /** A counter inside a longer string keeps its tag and its number. */
  lemma {:induction false} NumberInside(s: Bytes, at: nat, counter: Bytes, v: uint64)
    requires BytesAt(s, at, counter)
    ensures |counter| == 9 && U64At(counter, 1, v) ==> s[at] == counter[0] && U64At(s, at + 1, v)
  {
    hide BigEndian;
    if |counter| == 9 {
      var part := s[at..at + 9];
      assert part == counter && part[1..9] == s[at + 1..at + 9];
    }
  }

  lemma {:induction false} DeletesLayout(ds: seq<E.DeletedFile>, i: nat)
    requires i < |ds|
    ensures |E.EncodeDeletes(ds)| == 13 * |ds| && E.EncodeDeletes(ds)[13 * i..13 * i + 13] == E.EncodeDeleted(ds[i])
  {
    hide U32, U64;
    E.DeletesSize(ds);
    E.DeletesSize(ds[1..]);
    var head, tail := E.EncodeDeleted(ds[0]), E.EncodeDeletes(ds[1..]);
    if i == 0 {
      assert (head + tail)[..13] == head;
    } else {
      DeletesLayout(ds[1..], i - 1);
      assert (head + tail)[13 * i..13 * i + 13] == tail[13 * (i - 1)..13 * (i - 1) + 13];
    }
  }

  /** Added files follow each other without gaps, in order. */
  lemma {:induction false} AddsLayout(fs: seq<E.FileMetadata>, i: nat)
    requires i < |fs|
    ensures E.EncodeAdds(fs) == E.EncodeAdds(fs[..i]) + (E.EncodeAdded(fs[i]) + E.EncodeAdds(fs[i + 1..]))
  {
    hide E.EncodeAdded;
    if i > 0 {
      AddsLayout(fs[1..], i - 1);
      assert fs[1..][..i - 1] == fs[..i][1..] && fs[1..][i..] == fs[i + 1..];
      Assoc(E.EncodeAdded(fs[0]), E.EncodeAdds(fs[..i][1..]), E.EncodeAdded(fs[i]) + E.EncodeAdds(fs[i + 1..]));
    } else {
      assert [] + E.EncodeAdds(fs) == E.EncodeAdds(fs);
    }
  }
}
