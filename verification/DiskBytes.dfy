/** From the bytes of the log, the manifest and the tables to the records, edits and entries of the engine's disk. */
module DiskBytes {
  import opened Basics
  import opened Coding
  import opened Keys
  import opened Runs
  import opened Records
  import Wal
  import B = Batches
  import opened VersionEdits
  import V = Versions
  import ManifestReplay
  import opened Blocks
  import opened TableFormat
  import opened TableWriter
  import TableReader
  import P = EngineProtocol
  import EngineDisk

  // ----- Any log: what a crash may leave

  /** An image that a crash may leave of a log whose first synced records are durable. */
  predicate MayRemain(f: Format, payloads: seq<Bytes>, synced: nat, image: Bytes)
    requires f.Valid() && synced <= |payloads|
  {
    |EncodeAll(f, payloads[..synced])| <= |image| && image <= EncodeAll(f, payloads)
  }

  lemma {:induction false} AllowedPrefix(f: Format, payloads: seq<Bytes>, k: nat)
    requires AllAllowed(f, payloads) && k <= |payloads|
    ensures AllAllowed(f, payloads[..k])
  {
    if k > 0 {
      AllowedPrefix(f, payloads[1..], k - 1);
      assert payloads[..k][1..] == payloads[1..][..k - 1];
    }
  }

  /**
   * Cutting at whole records loses nothing: every number of records from the durable ones up is what some crash
   * leaves.
   */
  lemma {:induction false} EveryCutRemains(f: Format, payloads: seq<Bytes>, synced: nat, k: nat)
    requires f.Valid() && AllAllowed(f, payloads) && synced <= k <= |payloads|
    ensures MayRemain(f, payloads, synced, EncodeAll(f, payloads[..k]))
    ensures ReadLog(f, EncodeAll(f, payloads[..k])) == Scan(payloads[..k], |EncodeAll(f, payloads[..k])|, Eof)
  {
    hide Record, NextRecord;
    assert payloads == payloads[..k] + payloads[k..];
    EncodeAllConcat(f, payloads[..k], payloads[k..]);
    assert payloads[..k] == payloads[..synced] + payloads[synced..k];
    EncodeAllConcat(f, payloads[..synced], payloads[synced..k]);
    AllowedPrefix(f, payloads, k);
    WholeLog(f, payloads[..k]);
  }

  lemma {:induction false} WholeLog(f: Format, payloads: seq<Bytes>)
    requires f.Valid() && AllAllowed(f, payloads)
    ensures ReadLog(f, EncodeAll(f, payloads)) == Scan(payloads, |EncodeAll(f, payloads)|, Eof)
  {
    hide Record, NextRecord, ReadLog;
    var n := |EncodeAll(f, payloads)|;
    TornLog(f, payloads, n);
    WholeIsLargest(f, payloads, n, |payloads|);
    assert payloads[..|payloads|] == payloads;
    assert EncodeAll(f, payloads)[..n] == EncodeAll(f, payloads);
  }

  /** What a power loss may leave of a log writer's file, in terms of its records. */
  lemma {:induction false} WriterSurvivors(w: Wal.Writer, payloads: seq<Bytes>, synced: nat, image: Bytes)
    requires w.Valid() && w.Appended() == EncodeAll(w.format, payloads) && w.MaySurvive(image)
    requires synced <= |payloads| && |EncodeAll(w.format, payloads[..synced])| <= w.synced
    ensures MayRemain(w.format, payloads, synced, image)
  {
    assert w.file == w.Appended()[..|w.file|];
  }

  // ----- The write-ahead log

  /**
   * What Write hands to the log and the log takes: lengths that fit their fields, deletes without values, a record
   * under the limit.
   */
  predicate Loggable(f: Format, batch: P.Batch) {
    |batch| < 0x1_0000_0000 && B.AllFit(batch) && B.NormalAll(batch) == batch && Allowed(f, B.EncodeBatch(batch))
  }

  predicate AllLoggable(f: Format, batches: seq<P.Batch>) {
    forall i :: 0 <= i < |batches| ==> Loggable(f, batches[i])
  }

  function BatchPayloads(batches: seq<P.Batch>): (r: seq<Bytes>)
    requires forall i :: 0 <= i < |batches| ==> |batches[i]| < 0x1_0000_0000
    ensures |r| == |batches| && forall i :: 0 <= i < |r| ==> r[i] == B.EncodeBatch(batches[i])
  {
    seq(|batches|, i requires 0 <= i < |batches| => B.EncodeBatch(batches[i]))
  }

  /** The batches of a list of payloads; None when one of them does not decode. */
  function DecodeBatches(payloads: seq<Bytes>): (r: Option<seq<P.Batch>>)
    ensures r.Some? ==> |r.value| == |payloads|
  {
    if payloads == [] then Some([])
    else match DecodeBatches(payloads[..|payloads| - 1])
      case None => None
      case Some(bs) =>
        match B.DecodeBatch(payloads[|payloads| - 1])
        case Err(_) => None
        case Ok(b) => Some(bs + [b])
  }

  lemma {:induction false} BatchesComeBack(f: Format, batches: seq<P.Batch>)
    requires AllLoggable(f, batches)
    ensures DecodeBatches(BatchPayloads(batches)) == Some(batches)
  {
    hide B.DecodeBatch, B.EncodeBatch, B.AllFit, B.NormalAll;
    if batches != [] {
      var n := |batches| - 1;
      BatchesComeBack(f, batches[..n]);
      assert BatchPayloads(batches)[..n] == BatchPayloads(batches[..n]);
      assert Loggable(f, batches[n]);
      B.BatchRoundTrip(batches[n]);
      assert batches == batches[..n] + [batches[n]];
    }
  }

  lemma {:induction false} PayloadsAllowed(f: Format, payloads: seq<Bytes>)
    requires forall i :: 0 <= i < |payloads| ==> Allowed(f, payloads[i])
    ensures AllAllowed(f, payloads)
  {
    if payloads != [] {
      PayloadsAllowed(f, payloads[1..]);
    }
  }

  /**
   * The log of the state machine is the log on disk: whatever bytes a crash leaves read back, and decode, as the
   * first k whole batches for some k no less than the durable ones, and trimming the torn tail leaves exactly the
   * bytes of those k.
   */
  lemma {:induction false} LogAfterCrash(f: Format, batches: seq<P.Batch>, synced: nat, image: Bytes) returns (k: nat)
    requires f.Valid() && AllLoggable(f, batches) && synced <= |batches|
    requires MayRemain(f, BatchPayloads(batches), synced, image)
    ensures synced <= k <= |batches|
    ensures var scan := ReadLog(f, image);
            && !scan.end.Bad? && DecodeBatches(scan.payloads) == Some(batches[..k])
            && image[..scan.valid] == EncodeAll(f, BatchPayloads(batches[..k]))
  {
    hide EncodeAll, ReadLog, B.EncodeBatch, DecodeBatches, Wal.Plus, Record;
    var payloads := BatchPayloads(batches);
    forall i | 0 <= i < |payloads| ensures Allowed(f, payloads[i]) {
      assert Loggable(f, batches[i]);
    }
    PayloadsAllowed(f, payloads);
    Wal.SurvivorsAreWholeRecords(f, payloads, synced, image);
    k := Whole(f, payloads, |image|);
    assert payloads[..k] == BatchPayloads(batches[..k]);
    BatchesComeBack(f, batches[..k]);
  }

  // ----- The manifest

  function EditPayloads(edits: seq<VersionEdit>): (r: seq<Bytes>)
    ensures |r| == |edits| && forall i :: 0 <= i < |r| ==> r[i] == EncodeEdit(edits[i])
  {
    seq(|edits|, i requires 0 <= i < |edits| => EncodeEdit(edits[i]))
  }

  predicate AllEditsStorable(edits: seq<VersionEdit>) {
    forall i :: 0 <= i < |edits| ==> EditStorable(edits[i])
  }

  /** Keys of a kind the engine writes, of a length the log takes. */
  predicate EngineKey(k: InternalKey) {
    ValidKind(k.kind) && |k.userKey| + 9 < 0x1_0000_0000
  }

  predicate EngineEdit(e: VersionEdit) {
    Normal(e) == e && forall i :: 0 <= i < |e.addedFiles| ==>
      EngineKey(e.addedFiles[i].smallestKey) && EngineKey(e.addedFiles[i].largestKey)
  }

  lemma {:induction false} CappedRefuses(b: Bytes, rest: Bytes)
    requires MAX_FIELD < |b| < 0x1_0000_0000
    ensures TakeCapped(Field(b) + rest).Err?
  {
    hide U32, GetU32, TakeU32;
    Assoc(U32(|b|), b, rest);
    TakeU32Of(|b|, b + rest);
  }

  lemma {:induction false} KeysRefused(a: InternalKey, b: InternalKey, rest: Bytes)
    requires EngineKey(a) && EngineKey(b) && !(KeyStorable(a) && KeyStorable(b))
    ensures TakeKeys(Field(EncodeKey(a)) + Field(EncodeKey(b)) + rest).Err?
  {
    hide Field, EncodeKey, DecodeKey, TakeCapped;
    Assoc(Field(EncodeKey(a)), Field(EncodeKey(b)), rest);
    if KeyStorable(a) {
      TakeCappedOf(EncodeKey(a), Field(EncodeKey(b)) + rest);
      CappedRefuses(EncodeKey(b), rest);
    } else {
      CappedRefuses(EncodeKey(a), Field(EncodeKey(b)) + rest);
    }
  }

  lemma {:induction false} AddedRefused(f: FileMetadata, rest: Bytes)
    requires EngineKey(f.smallestKey) && EngineKey(f.largestKey) && !AddStorable(f)
    ensures TakeAdded(EncodeAdded(f)[1..] + rest).Err?
  {
    hide U32, U64, TakeU32, TakeU64, TakeKeys, Field, EncodeKey;
    var keys := Field(EncodeKey(f.smallestKey)) + Field(EncodeKey(f.largestKey));
    var s3, s2 := keys + rest, U64(f.size) + keys;
    var s1 := U64(f.fileID) + s2;
    assert EncodeAdded(f)[1..] == U32(f.level) + s1;
    Assoc(U32(f.level), s1, rest);
    TakeU32Of(f.level, s1 + rest);
    Assoc(U64(f.fileID), s2, rest);
    TakeU64Of(f.fileID, s2 + rest);
    Assoc(U64(f.size), keys, rest);
    TakeU64Of(f.size, s3);
    KeysRefused(f.smallestKey, f.largestKey, rest);
  }

  /** The first edit of a fresh manifest: next file id 1, last sequence 0, log number 0, and nothing else. */
  lemma {:induction false} BootstrapBytes()
    ensures EncodeEdit(P.BOOTSTRAP)
         == [3, 0, 0, 0, 0, 0, 0, 0, 1] + [4, 0, 0, 0, 0, 0, 0, 0, 0] + [5, 0, 0, 0, 0, 0, 0, 0, 0]
  {
    assert U64(1) == [0, 0, 0, 0, 0, 0, 0, 1] && U64(0) == [0, 0, 0, 0, 0, 0, 0, 0];
    assert [3] + U64(1) == [3, 0, 0, 0, 0, 0, 0, 0, 1] && [4] + U64(0) == [4, 0, 0, 0, 0, 0, 0, 0, 0];
    assert [5] + U64(0) == [5, 0, 0, 0, 0, 0, 0, 0, 0];
    assert EncodeDeletes([]) + EncodeAdds([]) == [];
  }

  /**
   * The edit of a flush whose smallest or largest key is over the cap is written without complaint and cannot be
   * read.
   */
  lemma {:induction false} OversizedEditUnreadable(e: VersionEdit, i: nat)
    requires EngineEdit(e) && EngineDisk.AddsTable(e, i) && !EditStorable(e)
    ensures DecodeEdit(EncodeEdit(e)).Err?
  {
    hide DecodeFrom, EncodeCounter, EncodeAdded, AddStorable;
    var f := e.addedFiles[0];
    assert EncodeDeletes(e.deletedFiles) == [] && EncodeAdds(e.addedFiles[1..]) == [];
    var s4 := EncodeDeletes(e.deletedFiles) + EncodeAdds(e.addedFiles);
    assert s4 == EncodeAdded(f) + [];
    var s3 := EncodeCounter(TAG_LOG_NUMBER, e.hasLogNumber, e.logNumber) + s4;
    var s2 := EncodeCounter(TAG_LAST_SEQUENCE, e.hasLastSequence, e.lastSequence) + s3;
    DecodeCounter(EMPTY_EDIT, TAG_NEXT_FILE_ID, e.hasNextFileID, e.nextFileID, s2);
    var e1 := EMPTY_EDIT.(nextFileID := e.nextFileID, hasNextFileID := true);
    DecodeCounter(e1, TAG_LAST_SEQUENCE, e.hasLastSequence, e.lastSequence, s3);
    var e2 := e1.(lastSequence := e.lastSequence, hasLastSequence := true);
    DecodeCounter(e2, TAG_LOG_NUMBER, e.hasLogNumber, e.logNumber, s4);
    RefusedAdd(e2, f);
  }

  lemma {:induction false} RefusedAdd(e: VersionEdit, f: FileMetadata)
    requires EngineKey(f.smallestKey) && EngineKey(f.largestKey) && !AddStorable(f)
    ensures DecodeFrom(e, EncodeAdded(f) + []).Err?
  {
    hide TakeAdded, AddStorable;
    var s := EncodeAdded(f) + [];
    AddedRefused(f, []);
    hide U32, U64, Field, EncodeKey;
    assert s[0] == TAG_ADD_FILE && s[1..] == EncodeAdded(f)[1..] + [];
  }

  lemma {:induction false} EditComesBack(e: VersionEdit, i: nat)
    requires EngineEdit(e) && (i == 0 ==> e == P.BOOTSTRAP) && (i > 0 ==> EngineDisk.AddsTable(e, i))
    ensures EditStorable(e) ==> DecodeEdit(EncodeEdit(e)) == Ok(e)
    ensures !EditStorable(e) ==> DecodeEdit(EncodeEdit(e)).Err?
  {
    hide DecodeEdit, EncodeEdit;
    EditRoundTrip(e);
    if !EditStorable(e) {
      OversizedEditUnreadable(e, i);
    }
  }

  ghost predicate EngineManifest(f: Format, m: seq<VersionEdit>) {
    && EngineDisk.WfManifest(m)
    && forall i :: 0 <= i < |m| ==> EngineEdit(m[i]) && Allowed(f, EncodeEdit(m[i]))
  }

  lemma {:induction false} EnginePrefix(f: Format, m: seq<VersionEdit>, k: nat)
    requires EngineManifest(f, m) && k <= |m|
    ensures EngineManifest(f, m[..k]) && EditPayloads(m)[..k] == EditPayloads(m[..k])
  {
    hide EncodeEdit, EngineEdit;
    EngineDisk.ManifestPrefix(m, k);
    hide EngineDisk.WfManifest;
  }

  /** The edits come back as they were written, exactly when every key in them is within the decoder's cap. */
  lemma {:induction false} EditsComeBack(f: Format, m: seq<VersionEdit>)
    requires EngineManifest(f, m)
    ensures ManifestReplay.DecodeEdits(EditPayloads(m)) == (if AllEditsStorable(m) then Some(m) else None)
  {
    hide DecodeEdit, EncodeEdit, EngineEdit, EditStorable;
    if m != [] {
      var n := |m| - 1;
      EnginePrefix(f, m, n);
      EditsComeBack(f, m[..n]);
      EditComesBack(m[n], n);
      assert m == m[..n] + [m[n]];
    }
  }

  lemma {:induction false} EditsAllowed(f: Format, m: seq<VersionEdit>)
    requires EngineManifest(f, m)
    ensures AllAllowed(f, EditPayloads(m))
  {
    hide EncodeEdit, EngineEdit, EngineDisk.WfManifest;
    PayloadsAllowed(f, EditPayloads(m));
  }

  /**
   * The database reopens if and only if every smallest and largest key it has published is within the manifest
   * decoder's cap of 64 KiB, encoded: the encoder does not check, and one longer key makes the manifest unreadable.
   */
  lemma {:induction false} ManifestReopensIff(f: Format, m: seq<VersionEdit>)
    requires f.Valid() && EngineManifest(f, m) && m != []
    ensures ManifestReplay.Replayable(f, EncodeAll(f, EditPayloads(m))) <==> AllEditsStorable(m)
  {
    EditsAllowed(f, m);
    WholeLog(f, EditPayloads(m));
    EditsComeBack(f, m);
    EngineDisk.ManifestCounters(m);
    EngineDisk.ManifestLive(m);
    hide EncodeAll, ReadLog, ManifestReplay.DecodeEdits, ManifestReplay.LiveOf, ManifestReplay.CountersOf, EncodeEdit,
         EngineEdit, EditStorable, EngineDisk.WfManifest;
  }

  /**
   * The manifest of the state machine is the manifest on disk: whatever a crash leaves replays as its first k edits.
   */
  lemma {:induction false} ManifestAfterCrash(f: Format, m: seq<VersionEdit>, synced: nat, image: Bytes)
                                              returns (k: nat)
    requires f.Valid() && EngineManifest(f, m) && AllEditsStorable(m) && 1 <= synced <= |m|
    requires MayRemain(f, EditPayloads(m), synced, image)
    ensures synced <= k <= |m| && ManifestReplay.Replayable(f, image)
    ensures var scan := ReadLog(f, image);
            && ManifestReplay.DecodeEdits(scan.payloads) == Some(m[..k])
            && image[..scan.valid] == EncodeAll(f, EditPayloads(m[..k]))
  {
    hide EncodeAll, ReadLog, EncodeEdit, ManifestReplay.DecodeEdits, Record, EngineEdit, EditStorable;
    EditsAllowed(f, m);
    Wal.SurvivorsAreWholeRecords(f, EditPayloads(m), synced, image);
    k := Whole(f, EditPayloads(m), |image|);
    EnginePrefix(f, m, k);
    EditsComeBack(f, m[..k]);
    EngineDisk.ManifestCounters(m[..k]);
    EngineDisk.ManifestLive(m[..k]);
    hide ManifestReplay.LiveOf, ManifestReplay.CountersOf, EngineDisk.WfManifest;
  }

  // ----- The version, and the tables it names

  lemma {:induction false} BootstrapVersion(result: V.Files)
    requires V.Applied([], P.BOOTSTRAP, result)
    ensures result == []
  {
    assert V.DeleteAll([], P.BOOTSTRAP.deletedFiles) == [];
    assert V.AddAll([], P.BOOTSTRAP.addedFiles) == [];
  }

  /** A flush edit puts its table at the end of level 0. */
  lemma {:induction false} FlushVersion(files: V.Files, e: VersionEdit, i: nat, result: V.Files)
    requires |files| <= 1 && EngineDisk.AddsTable(e, i) && V.Applied(files, e, result)
    ensures result == [V.Level(files, 0) + e.addedFiles]
  {
    var f := e.addedFiles[0];
    assert V.DeleteAll(files, e.deletedFiles) == files;
    assert V.AddAll(V.AddOne(files, f), e.addedFiles[1..]) == V.AddOne(files, f);
    assert V.AddAll(files, e.addedFiles) == V.AddOne(files, f);
    assert e.addedFiles == [f];
    assert V.AddOne(files, f) == [V.Level(files, 0) + [f]];
    var u := V.Unsorted(files, e);
    assert V.LevelApplied(u[0], result[0], false);
  }

  lemma {:induction false} FileIdsSnoc(fs: seq<FileMetadata>, f: FileMetadata)
    ensures P.FileIds(fs + [f]) == P.FileIds(fs) + [f.fileID as nat]
  {
    if fs == [] {
      assert [f][1..] == [] && P.FileIds([]) == [];
    } else {
      assert (fs + [f])[1..] == fs[1..] + [f];
      FileIdsSnoc(fs[1..], f);
    }
  }

  /** The version that replay builds from an engine manifest lists the tables in the order they were added. */
  lemma {:induction false} VersionListsTables(m: seq<VersionEdit>, versions: seq<V.Files>, n: nat)
    requires EngineDisk.WfManifest(m) && V.History(m, versions) && 1 <= n <= |m|
    ensures |versions[n]| <= 1 && P.FileIds(V.Flat(versions[n])) == P.AddedIds(m[..n])
  {
    hide V.Applied, P.AddedIds, EngineDisk.AddsTable;
    EngineDisk.ManifestPrefix(m, n);
    EngineDisk.ManifestAdds(m[..n]);
    if n == 1 {
      BootstrapVersion(versions[1]);
    } else {
      assert EngineDisk.AddsTable(m[n - 1], n - 1);
      VersionListsTables(m, versions, n - 1);
      EngineDisk.ManifestPrefix(m, n - 1);
      EngineDisk.ManifestAdds(m[..n - 1]);
      hide EngineDisk.WfManifest, V.Flat, P.FileIds;
      OneMoreFile(versions[n - 1], m[n - 1], n - 1, versions[n]);
      assert EngineDisk.Ids(n - 2) + [n - 1] == EngineDisk.Ids(n - 1);
    }
  }

  lemma {:induction false} OneMoreFile(before: V.Files, e: VersionEdit, i: nat, after: V.Files)
    requires |before| <= 1 && EngineDisk.AddsTable(e, i) && V.Applied(before, e, after)
    ensures |after| == 1 && P.FileIds(V.Flat(after)) == P.FileIds(V.Flat(before)) + [i]
  {
    hide V.Applied, P.FileIds, V.Flat;
    FlushVersion(before, e, i, after);
    OneLevelFlat(before);
    OneLevelFlat(after);
    FileIdsSnoc(V.Level(before, 0), e.addedFiles[0]);
    assert e.addedFiles == [e.addedFiles[0]];
  }

  /** An engine manifest deletes nothing, so replay's live set is the version's ids at every point. */
  lemma {:induction false} EngineStreamInSync(m: seq<VersionEdit>, versions: seq<V.Files>, n: nat)
    requires EngineDisk.WfManifest(m) && m != [] && V.History(m, versions) && n <= |m|
    ensures |versions| == |m| + 1 && ManifestReplay.InSyncAt(m, versions, n)
  {
    ManifestReplay.HistoryLength(m, versions);
    EngineDisk.ManifestLive(m);
    hide V.History, ManifestReplay.LiveOf;
    forall i | 0 <= i < |m| ensures ManifestReplay.ProperAt(m, versions, i) {
      ManifestReplay.LiveUntil(m, i);
      assert i > 0 ==> EngineDisk.AddsTable(m[i], i);
      NoDeletesProper(versions[i], ManifestReplay.LiveOf(m[..i]).value, m[i]);
    }
    hide EngineDisk.WfManifest;
    ManifestReplay.StreamInSyncIff(m, versions);
  }

  lemma {:induction false} NoDeletesProper(files: V.Files, live: set<uint64>, edit: VersionEdit)
    requires edit.deletedFiles == []
    ensures V.ProperDeletes(files, live, edit)
  {
  }

  lemma {:induction false} OneLevelFlat(files: V.Files)
    requires |files| <= 1
    ensures V.Flat(files) == V.Level(files, 0)
  {
    if |files| == 1 {
      assert files[1..] == [] && V.Flat([]) == [];
      assert files[0] + [] == files[0];
    }
  }

  /** A table written from a memtable and opened again answers every read as the memtable did. */
  lemma {:induction false} TableAnswersAsMemtable(crc: Checksum, es: seq<Entry>, blockSize: nat, key: Bytes, seqno: nat)
    requires StrictlySorted(es) && AllStorable(es)
    requires NoneEmpty(TableBlocks(es, blockSize)) ==> TableReader.FitsFormat(crc, TableBlocks(es, blockSize))
    ensures NoneEmpty(TableBlocks(es, blockSize))
    ensures var r := TableReader.OpenTable(crc, TableBytes(crc, TableBlocks(es, blockSize)));
            r.Ok? && TableReader.TableGet(r.value, key, seqno) == Ok(ScanGet(es, key, seqno))
  {
    hide TableReader.OpenTable, TableReader.TableGet, TableBytes, TableBlocks, TableReader.Holds;
    TableReader.TableRoundTrip(crc, es, blockSize);
    var blocks := TableBlocks(es, blockSize);
    TableReader.LookupIsScan(TableReader.OpenTable(crc, TableBytes(crc, blocks)).value, blocks, key, seqno);
  }
}
