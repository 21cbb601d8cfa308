/** Rebuilding the file set and the counters from the bytes of a manifest. */
module ManifestReplay {
  import opened Basics
  import opened Records
  import Wal
  import opened VersionEdits
  import opened Versions

  datatype ReplayError = CorruptManifest(error: RecordError) | BadEdit(edit: EditError) | DuplicateFile | NoNextFileID

  datatype Counters = Counters(nextFileID: uint64, lastSequence: uint64, logNumber: uint64, sawNextFileID: bool)

  /** The last value of each counter wins. */
  function Bump(c: Counters, e: VersionEdit): Counters {
    Counters(if e.hasNextFileID then e.nextFileID else c.nextFileID,
             if e.hasLastSequence then e.lastSequence else c.lastSequence,
             if e.hasLogNumber then e.logNumber else c.logNumber,
             c.sawNextFileID || e.hasNextFileID)
  }

  function CountersOf(edits: seq<VersionEdit>): Counters {
    if edits == [] then Counters(0, 0, 0, false) else Bump(CountersOf(edits[..|edits| - 1]), edits[|edits| - 1])
  }

  /** No edit after the i-th sets the counter again. */
  predicate LastWith(has: VersionEdit -> bool, edits: seq<VersionEdit>, i: nat) {
    i < |edits| && has(edits[i]) && forall j :: i < j < |edits| ==> !has(edits[j])
  }

  /** Each counter has the value of the last edit that sets it, and starts from zero. */
  lemma {:induction false} CountersAreLast(edits: seq<VersionEdit>, i: nat)
    ensures var c := CountersOf(edits);
            && (c.sawNextFileID <==> exists j :: 0 <= j < |edits| && edits[j].hasNextFileID)
            && (LastWith((e: VersionEdit) => e.hasNextFileID, edits, i) ==> c.nextFileID == edits[i].nextFileID)
            && (LastWith((e: VersionEdit) => e.hasLastSequence, edits, i) ==> c.lastSequence == edits[i].lastSequence)
            && (LastWith((e: VersionEdit) => e.hasLogNumber, edits, i) ==> c.logNumber == edits[i].logNumber)
            && ((forall j :: 0 <= j < |edits| ==> !edits[j].hasLastSequence) ==> c.lastSequence == 0)
  {
    if edits != [] {
      var n := |edits| - 1;
      var shorter := edits[..n];
      CountersAreLast(shorter, i);
      assert (exists j :: 0 <= j < |edits| && edits[j].hasNextFileID)
        <==> (edits[n].hasNextFileID || exists j :: 0 <= j < n && shorter[j].hasNextFileID);
    }
  }

  /** The live set after a stream; None once some AddFile repeats a live id. */
  function LiveOf(edits: seq<VersionEdit>): Option<set<uint64>> {
    if edits == [] then Some({})
    else match LiveOf(edits[..|edits| - 1])
      case None => None
      case Some(live) => LiveAfter(live, edits[|edits| - 1])
  }

  // ----- The live set and the version, over a whole stream

  /** After n edits, the live set is exactly the ids in the version, each there once. */
  ghost predicate InSyncAt(edits: seq<VersionEdit>, versions: seq<Files>, n: nat)
    requires n <= |edits| && |versions| == |edits| + 1
  {
    LiveOf(edits[..n]).Some? && InSync(versions[n], LiveOf(edits[..n]).value)
  }

  /** Edit i deletes files where they are, and none that it adds. */
  ghost predicate ProperAt(edits: seq<VersionEdit>, versions: seq<Files>, i: nat)
    requires i < |edits| && |versions| == |edits| + 1
  {
    LiveOf(edits[..i]).Some? && ProperDeletes(versions[i], LiveOf(edits[..i]).value, edits[i])
  }

  lemma {:induction false} LiveUntil(edits: seq<VersionEdit>, n: nat)
    requires LiveOf(edits).Some? && n <= |edits|
    ensures LiveOf(edits[..n]).Some?
  {
    assert edits == edits[..n] + edits[n..];
    LivePrefix(edits[..n], edits[n..]);
  }

  lemma {:induction false} SyncStep(edits: seq<VersionEdit>, versions: seq<Files>, i: nat)
    requires History(edits, versions) && LiveOf(edits).Some? && i < |edits| && InSyncAt(edits, versions, i)
    ensures InSyncAt(edits, versions, i + 1) <==> ProperAt(edits, versions, i)
  {
    hide InSync, ProperDeletes, LiveAfter, Applied;
    LiveUntil(edits, i + 1);
    assert edits[..i + 1][..i] == edits[..i] && edits[..i + 1][i] == edits[i];
    LiveSetInSync(versions[i], LiveOf(edits[..i]).value, edits[i], versions[i + 1]);
  }

  lemma {:induction false} SyncUntil(edits: seq<VersionEdit>, versions: seq<Files>, n: nat)
    requires History(edits, versions) && LiveOf(edits).Some? && n <= |edits|
    requires forall i :: 0 <= i < n ==> ProperAt(edits, versions, i)
    ensures InSyncAt(edits, versions, n)
  {
    if n == 0 {
      assert edits[..0] == [] && versions[0] == [];
      assert LiveOf([]) == Some({}) && Ids(Flat([])) == multiset{};
    } else {
      hide InSyncAt, ProperAt, History, LiveOf;
      SyncUntil(edits, versions, n - 1);
      SyncStep(edits, versions, n - 1);
    }
  }

  /**
   * Over any stream of edits that replay accepts: the live set that replay keeps beside the version is, at every
   * point, exactly the ids in the version, with no repeats, if and only if every edit's deletes are proper.
   */
  lemma {:induction false} StreamInSyncIff(edits: seq<VersionEdit>, versions: seq<Files>)
    requires History(edits, versions) && LiveOf(edits).Some?
    ensures (forall n :: 0 <= n <= |edits| ==> InSyncAt(edits, versions, n))
       <==> (forall i :: 0 <= i < |edits| ==> ProperAt(edits, versions, i))
  {
    hide InSyncAt, ProperAt, History, LiveOf;
    assert |versions| == |edits| + 1 by { HistoryLength(edits, versions); }
    if forall n :: 0 <= n <= |edits| ==> InSyncAt(edits, versions, n) {
      forall i | 0 <= i < |edits| ensures ProperAt(edits, versions, i) {
        SyncStep(edits, versions, i);
      }
    }
    if forall i :: 0 <= i < |edits| ==> ProperAt(edits, versions, i) {
      forall n | 0 <= n <= |edits| ensures InSyncAt(edits, versions, n) {
        SyncUntil(edits, versions, n);
      }
    }
  }

  lemma {:induction false} HistoryLength(edits: seq<VersionEdit>, versions: seq<Files>)
    requires History(edits, versions)
    ensures |versions| == |edits| + 1
  {
  }

  // ----- From payloads

  /** The edits of a stream of payloads; None when one of them does not decode. */
  function DecodeEdits(payloads: seq<Bytes>): (r: Option<seq<VersionEdit>>)
    ensures r.Some? ==> |r.value| == |payloads|
  {
    if payloads == [] then Some([])
    else match DecodeEdits(payloads[..|payloads| - 1])
      case None => None
      case Some(es) =>
        match DecodeEdit(payloads[|payloads| - 1])
        case Err(_) => None
        case Ok(e) => Some(es + [e])
  }

  lemma {:induction false} DecodeEditsPrefix(a: seq<Bytes>, b: seq<Bytes>)
    requires DecodeEdits(a + b).Some?
    ensures DecodeEdits(a).Some? && DecodeEdits(a).value <= DecodeEdits(a + b).value
    decreases b
  {
    hide DecodeEdit;
    if b == [] {
      assert a + b == a;
    } else {
      assert (a + b)[..|a + b| - 1] == a + b[..|b| - 1];
      DecodeEditsPrefix(a, b[..|b| - 1]);
    }
  }

  lemma {:induction false} LivePrefix(a: seq<VersionEdit>, b: seq<VersionEdit>)
    requires LiveOf(a + b).Some?
    ensures LiveOf(a).Some?
    decreases b
  {
    hide LiveAfter;
    if b == [] {
      assert a + b == a;
    } else {
      assert (a + b)[..|a + b| - 1] == a + b[..|b| - 1];
      LivePrefix(a, b[..|b| - 1]);
    }
  }

  /**
   * What makes a manifest replayable: whole records up to a clean end or a torn tail, edits that decode, no repeat, a
   * file counter.
   */
  predicate Replayable(f: Format, data: Bytes)
    requires f.Valid()
  {
    var scan := ReadLog(f, data);
    && !scan.end.Bad?
    && DecodeEdits(scan.payloads).Some?
    && LiveOf(DecodeEdits(scan.payloads).value).Some?
    && CountersOf(DecodeEdits(scan.payloads).value).sawNextFileID
  }

  lemma {:induction false} DecodeEditsIff(payloads: seq<Bytes>)
    ensures DecodeEdits(payloads).Some? <==> forall i :: 0 <= i < |payloads| ==> DecodeEdit(payloads[i]).Ok?
  {
    hide DecodeEdit;
    if payloads != [] {
      DecodeEditsIff(payloads[..|payloads| - 1]);
    }
  }

  /**
   * Exactly the manifests that replay: whole records that are edits, then nothing or a write that did not get
   * through; no edit adds a live file, and some edit sets the next file id.
   */
  lemma {:induction false} ReplayableIff(f: Format, data: Bytes)
    requires f.Valid()
    ensures var scan := ReadLog(f, data);
            var tail := data[scan.valid..];
            Replayable(f, data) <==>
              && (tail == [] || TornTail(f, tail))
              && DecodeEdits(scan.payloads).Some?
              && LiveOf(DecodeEdits(scan.payloads).value).Some?
              && var edits := DecodeEdits(scan.payloads).value;
                 exists j :: 0 <= j < |edits| && edits[j].hasNextFileID
  {
    hide NextRecord, ReadLog, TornTail, DecodeEdit, DecodeEdits, LiveOf, CountersOf;
    var scan := ReadLog(f, data);
    TailDecides(f, data);
    StopsIff(f, data[scan.valid..]);
    if DecodeEdits(scan.payloads).Some? {
      CountersAreLast(DecodeEdits(scan.payloads).value, 0);
    }
  }

  /** A manifest with a damaged record anywhere is refused. */
  lemma {:induction false} DamagedManifestIsRefused(f: Format, before: seq<Bytes>, payload: Bytes, other: Bytes,
                                                    rest: Bytes)
    requires f.Valid() && AllAllowed(f, before) && Allowed(f, payload)
    requires |other| == |payload| && f.crc(other) != f.crc(payload)
    ensures !Replayable(f, EncodeAll(f, before) + (Header(f, payload) + other + rest))
  {
    hide ReadLog, Header, EncodeAll;
    DamagedRecordIsError(f, before, payload, other, rest);
  }

  class ReplayResult {
    var version: Version
    var counters: Counters
    var live: set<uint64>
    var validOffset: nat
    var tailTrimmed: bool

    constructor ()
      ensures fresh(version) && version.files == [] && counters == Counters(0, 0, 0, false) && live == {}
    {
      version := new Version();
      counters, live, validOffset, tailTrimmed := Counters(0, 0, 0, false), {}, 0, false;
    }

    /** Folds one edit in; false is the duplicate-AddFile error. */
    method ApplyEdit(edit: VersionEdit) returns (ok: bool)
      modifies this
      ensures ok == LiveAfter(old(live), edit).Some?
      ensures ok ==> Some(live) == LiveAfter(old(live), edit) && counters == Bump(old(counters), edit)
      ensures ok ==> Applied(old(version.files), edit, version.files)
    {
      hide Applied;
      for i := 0 to |edit.addedFiles|
        invariant LiveAfterAdds(old(live), edit.addedFiles) == LiveAfterAdds(live, edit.addedFiles[i..])
        invariant version == old(version) && counters == old(counters)
      {
        var id := edit.addedFiles[i].fileID;
        assert edit.addedFiles[i..][1..] == edit.addedFiles[i + 1..];
        if id in live {
          return false;
        }
        live := live + {id};
      }
      ghost var all := live;
      for i := 0 to |edit.deletedFiles|
        invariant live == all - (set d | d in edit.deletedFiles[..i] :: d.fileID)
        invariant version == old(version) && counters == old(counters)
      {
        assert edit.deletedFiles[..i + 1] == edit.deletedFiles[..i] + [edit.deletedFiles[i]];
        live := live - {edit.deletedFiles[i].fileID};
      }
      assert edit.deletedFiles[..|edit.deletedFiles|] == edit.deletedFiles;
      version := version.Apply(edit);
      counters := Bump(counters, edit);
      ok := true;
    }
  }

  /**
   * replayManifestStream: succeeds on exactly the replayable manifests, and then yields the fold of the
   * whole records in the file, the offset to trim to, and whether there was a torn tail.
   */
  method ReplayManifestStream(f: Format, data: Bytes)
    returns (r: Result<ReplayResult, ReplayError>, ghost versions: seq<Files>)
    requires f.Valid()
    ensures r.Ok? <==> Replayable(f, data)
    ensures r.Err? ==>
              match r.error
              case CorruptManifest(e) => ReadLog(f, data).end == Bad(e)
              case BadEdit(_) => DecodeEdits(ReadLog(f, data).payloads).None?
              case DuplicateFile =>
                var edits := DecodeEdits(ReadLog(f, data).payloads);
                edits.Some? ==> LiveOf(edits.value).None?
              case NoNextFileID =>
                var edits := DecodeEdits(ReadLog(f, data).payloads);
                edits.Some? && !CountersOf(edits.value).sawNextFileID
    ensures r.Ok? ==> var scan := ReadLog(f, data);
                      var edits := DecodeEdits(scan.payloads).value;
                      && History(edits, versions) && r.value.version.files == versions[|edits|]
                      && r.value.counters == CountersOf(edits) && Some(r.value.live) == LiveOf(edits)
                      && r.value.validOffset == scan.valid && r.value.tailTrimmed == scan.end.Torn?
                      && ((forall i :: 0 <= i < |edits| ==> ProperAt(edits, versions, i)) ==>
                            InSync(r.value.version.files, r.value.live))
  {
    hide NextRecord, ReadLog, Applied, Bump, LiveAfter, DecodeEdit, DecodeEdits, LiveOf, CountersOf, History, ReadUpTo,
         ProperAt, InSync;
    var reader := new Wal.Reader(f, data);
    var res := new ReplayResult();
    ghost var edits: seq<VersionEdit> := [];
    versions := [[]];
    EmptyStream(f, data);
    while true
      invariant reader.AtBoundary() && reader.format == f && reader.data == data && fresh(reader) && fresh(res)
      invariant ReadUpTo(f, data, reader.pos, edits)
      invariant LiveOf(edits) == Some(res.live) && CountersOf(edits) == res.counters
      invariant |versions| == |edits| + 1 && History(edits, versions) && res.version.files == versions[|edits|]
      decreases |data| - reader.pos
    {
      ghost var pos := reader.pos;
      var next := reader.Next();
      match next
      case Err(e) =>
        StopsHere(f, data, pos, edits);
        if e.BadRecord? {
          return Err(CorruptManifest(e.error)), versions;
        }
        if !res.counters.sawNextFileID {
          return Err(NoNextFileID), versions;
        }
        res.validOffset, res.tailTrimmed := reader.pos, e == Wal.TruncatedRecord;
        FinalSync(edits, versions);
        return Ok(res), versions;
      case Ok(payload) =>
        GoesOn(f, data, pos, edits);
        var edit := DecodeVersionEdit(payload);
        if edit.Err? {
          return Err(BadEdit(edit.error)), versions;
        }
        var ok := res.ApplyEdit(edit.value);
        EditsMore(edits, edit.value);
        if !ok {
          return Err(DuplicateFile), versions;
        }
        HistoryMore(edits, versions, edit.value, res.version.files);
        edits, versions := edits + [edit.value], versions + [res.version.files];
    }
  }

  /** The records before pos are edits, and have been read. */
  ghost predicate ReadUpTo(f: Format, data: Bytes, pos: nat, edits: seq<VersionEdit>)
    requires f.Valid()
  {
    && pos <= |data|
    && exists done :: DecodeEdits(done) == Some(edits) &&
        ReadLog(f, data) == Wal.Plus(done, pos, ReadLog(f, data[pos..]))
  }

  lemma {:induction false} EmptyStream(f: Format, data: Bytes)
    requires f.Valid()
    ensures ReadUpTo(f, data, 0, []) && LiveOf([]) == Some({}) && CountersOf([]) == Counters(0, 0, 0, false)
    ensures History([], [[]])
  {
    hide ReadLog;
    assert data[0..] == data && DecodeEdits([]) == Some([]);
    Wal.ScanPlusNothing(ReadLog(f, data));
  }

  /** The last look at a manifest. */
  lemma {:induction false} StopsHere(f: Format, data: Bytes, pos: nat, edits: seq<VersionEdit>)
    requires f.Valid() && ReadUpTo(f, data, pos, edits) && !NextRecord(f, data[pos..]).Rec?
    ensures var scan := ReadLog(f, data);
            scan.end == NextRecord(f, data[pos..]) && scan.valid == pos && DecodeEdits(scan.payloads) == Some(edits)
  {
    hide NextRecord, DecodeEdits;
    var done :| DecodeEdits(done) == Some(edits) &&
                ReadLog(f, data) == Wal.Plus(done, pos, ReadLog(f, data[pos..]));
    Wal.PlusEnd(done, pos, NextRecord(f, data[pos..]));
  }

  /** One more record; when it is no edit, or adds a live file, the manifest does not replay whatever follows. */
  lemma {:induction false} GoesOn(f: Format, data: Bytes, pos: nat, edits: seq<VersionEdit>)
    requires f.Valid() && ReadUpTo(f, data, pos, edits) && NextRecord(f, data[pos..]).Rec?
    ensures var payload := NextRecord(f, data[pos..]).payload;
            var edit, all := DecodeEdit(payload), DecodeEdits(ReadLog(f, data).payloads);
            if edit.Err? then all.None?
            else
              && ReadUpTo(f, data, pos + HEADER_SIZE + |payload|, edits + [edit.value])
              && (LiveOf(edits + [edit.value]).None? && all.Some? ==> LiveOf(all.value).None?)
  {
    hide NextRecord, DecodeEdits, DecodeEdit, LiveOf;
    var done :| DecodeEdits(done) == Some(edits) &&
                ReadLog(f, data) == Wal.Plus(done, pos, ReadLog(f, data[pos..]));
    var payload := NextRecord(f, data[pos..]).payload;
    var size := HEADER_SIZE + |payload|;
    ReadRecord(f, data[pos..]);
    RestAfter(f, data, pos);
    hide ReadLog;
    var more := ReadLog(f, data[pos + size..]);
    Wal.PlusPlus(done, pos, [payload], size, more);
    DecodeEditsMore(done, payload);
    StreamPrefix(done + [payload], more.payloads);
  }

  lemma {:induction false} HistoryMore(edits: seq<VersionEdit>, versions: seq<Files>, edit: VersionEdit, files: Files)
    requires History(edits, versions) && |versions| == |edits| + 1 && Applied(versions[|edits|], edit, files)
    ensures History(edits + [edit], versions + [files])
  {
    hide Applied;
  }

  lemma {:induction false} FinalSync(edits: seq<VersionEdit>, versions: seq<Files>)
    requires History(edits, versions) && LiveOf(edits).Some?
    ensures (forall i :: 0 <= i < |edits| ==> ProperAt(edits, versions, i)) ==>
              InSync(versions[|edits|], LiveOf(edits).value)
  {
    hide ProperAt, History, LiveOf, InSync;
    HistoryLength(edits, versions);
    StreamInSyncIff(edits, versions);
    assert edits[..|edits|] == edits;
    if forall i :: 0 <= i < |edits| ==> ProperAt(edits, versions, i) {
      assert InSyncAt(edits, versions, |edits|);
    }
  }

  lemma {:induction false} DecodeEditsMore(payloads: seq<Bytes>, payload: Bytes)
    requires DecodeEdits(payloads).Some?
    ensures DecodeEdits(payloads + [payload])
         == if DecodeEdit(payload).Err? then None else Some(DecodeEdits(payloads).value + [DecodeEdit(payload).value])
  {
    hide DecodeEdit;
    assert (payloads + [payload])[..|payloads|] == payloads;
  }

  lemma {:induction false} EditsMore(edits: seq<VersionEdit>, edit: VersionEdit)
    requires LiveOf(edits).Some?
    ensures LiveOf(edits + [edit]) == LiveAfter(LiveOf(edits).value, edit)
    ensures CountersOf(edits + [edit]) == Bump(CountersOf(edits), edit)
  {
    hide LiveAfter;
    assert (edits + [edit])[..|edits|] == edits;
  }

  /** What a prefix of the records already rules out. */
  lemma {:induction false} StreamPrefix(done: seq<Bytes>, rest: seq<Bytes>)
    ensures DecodeEdits(done).None? ==> DecodeEdits(done + rest).None?
    ensures DecodeEdits(done).Some? && DecodeEdits(done + rest).Some? && LiveOf(DecodeEdits(done).value).None? ==>
              LiveOf(DecodeEdits(done + rest).value).None?
  {
    hide DecodeEdits, LiveOf;
    if DecodeEdits(done + rest).Some? {
      DecodeEditsPrefix(done, rest);
      var all, some := DecodeEdits(done + rest).value, DecodeEdits(done).value;
      assert all == some + all[|some|..];
      if LiveOf(all).Some? {
        LivePrefix(some, all[|some|..]);
      }
    }
  }
}
