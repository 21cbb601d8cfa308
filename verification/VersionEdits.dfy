/** Manifest edits and their tagged encoding. */
module VersionEdits {
  import opened Basics
  import opened Coding
  import opened Keys

  datatype FileMetadata = FileMetadata(
    level: uint32, fileID: uint64, size: uint64, smallestKey: InternalKey, largestKey: InternalKey)

  datatype DeletedFile = DeletedFile(level: uint32, fileID: uint64)

  datatype VersionEdit = VersionEdit(
    addedFiles: seq<FileMetadata>, deletedFiles: seq<DeletedFile>,
    hasNextFileID: bool, nextFileID: uint64,
    hasLastSequence: bool, lastSequence: uint64,
    hasLogNumber: bool, logNumber: uint64)

  datatype EditError = UnknownTag | TruncatedEdit | EditFieldTooLarge | CorruptKey

  const TAG_ADD_FILE: byte := 1
  const TAG_DELETE_FILE: byte := 2
  const TAG_NEXT_FILE_ID: byte := 3
  const TAG_LAST_SEQUENCE: byte := 4
  const TAG_LOG_NUMBER: byte := 5

  const MAX_FIELD := 0x1_0000

  const EMPTY_EDIT := VersionEdit([], [], false, 0, false, 0, false, 0)

  function EncodeCounter(tag: byte, has: bool, value: uint64): Bytes {
    if has then [tag] + U64(value) else []
  }

  function EncodeDeleted(d: DeletedFile): Bytes {
    [TAG_DELETE_FILE] + (U32(d.level) + U64(d.fileID))
  }

  function EncodeAdded(a: FileMetadata): Bytes {
    [TAG_ADD_FILE] + (U32(a.level) + (U64(a.fileID) + (U64(a.size)
      + (Field(EncodeKey(a.smallestKey)) + Field(EncodeKey(a.largestKey))))))
  }

  function EncodeDeletes(ds: seq<DeletedFile>): Bytes {
    if ds == [] then [] else EncodeDeleted(ds[0]) + EncodeDeletes(ds[1..])
  }

  function EncodeAdds(fs: seq<FileMetadata>): Bytes {
    if fs == [] then [] else EncodeAdded(fs[0]) + EncodeAdds(fs[1..])
  }

  /** Counters that are set, then deletes, then adds. */
  function EncodeEdit(e: VersionEdit): Bytes {
    EncodeCounter(TAG_NEXT_FILE_ID, e.hasNextFileID, e.nextFileID)
    + (EncodeCounter(TAG_LAST_SEQUENCE, e.hasLastSequence, e.lastSequence)
       + (EncodeCounter(TAG_LOG_NUMBER, e.hasLogNumber, e.logNumber)
          + (EncodeDeletes(e.deletedFiles) + EncodeAdds(e.addedFiles))))
  }

  /** A length-prefixed field of at most 64 KiB; the length is checked before the bytes are. */
  function TakeCapped(s: Bytes): (r: Result<(Bytes, Bytes), EditError>)
    ensures r.Ok? ==> |r.value.0| <= MAX_FIELD && |r.value.1| < |s|
  {
    match TakeU32(s)
    case None => Err(TruncatedEdit)
    case Some((n, rest)) =>
      if n > MAX_FIELD then Err(EditFieldTooLarge)
      else match TakeBytes(rest, n)
        case None => Err(TruncatedEdit)
        case Some((b, rest')) => Ok((b, rest'))
  }

  function TakeDeleted(s: Bytes): (r: Result<(DeletedFile, Bytes), EditError>)
    ensures r.Ok? ==> |r.value.1| < |s|
  {
    match TakeU32(s)
    case None => Err(TruncatedEdit)
    case Some((level, rest)) =>
      match TakeU64(rest)
      case None => Err(TruncatedEdit)
      case Some((id, rest')) => Ok((DeletedFile(level, id), rest'))
  }

  /** Both key fields are read before either key is decoded. */
  function TakeKeys(s: Bytes): (r: Result<((InternalKey, InternalKey), Bytes), EditError>)
    ensures r.Ok? ==> |r.value.1| < |s| && KeyStorable(r.value.0.0) && KeyStorable(r.value.0.1)
  {
    match TakeCapped(s)
    case Err(e) => Err(e)
    case Ok((smallest, rest)) =>
      match TakeCapped(rest)
      case Err(e) => Err(e)
      case Ok((largest, rest')) =>
        if DecodeKey(smallest).None? || DecodeKey(largest).None? then Err(CorruptKey)
        else Ok(((DecodeKey(smallest).value, DecodeKey(largest).value), rest'))
  }

  function TakeAdded(s: Bytes): (r: Result<(FileMetadata, Bytes), EditError>)
    ensures r.Ok? ==> |r.value.1| < |s| && AddStorable(r.value.0)
  {
    match TakeU32(s)
    case None => Err(TruncatedEdit)
    case Some((level, s1)) =>
      match TakeU64(s1)
      case None => Err(TruncatedEdit)
      case Some((id, s2)) =>
        match TakeU64(s2)
        case None => Err(TruncatedEdit)
        case Some((size, s3)) =>
          match TakeKeys(s3)
          case Err(e) => Err(e)
          case Ok((keys, rest)) => Ok((FileMetadata(level, id, size, keys.0, keys.1), rest))
  }

  /** Reads what follows one tag and records it in the edit. */
  function TakeTag(e: VersionEdit, tag: byte, s: Bytes): (r: Result<(VersionEdit, Bytes), EditError>)
    ensures r.Ok? ==> |r.value.1| < |s|
  {
    if tag == TAG_NEXT_FILE_ID || tag == TAG_LAST_SEQUENCE || tag == TAG_LOG_NUMBER then
      match TakeU64(s)
      case None => Err(TruncatedEdit)
      case Some((v, rest)) =>
        Ok((if tag == TAG_NEXT_FILE_ID then e.(nextFileID := v, hasNextFileID := true)
            else if tag == TAG_LAST_SEQUENCE then e.(lastSequence := v, hasLastSequence := true)
            else e.(logNumber := v, hasLogNumber := true), rest))
    else if tag == TAG_DELETE_FILE then
      match TakeDeleted(s)
      case Err(err) => Err(err)
      case Ok((d, rest)) => Ok((e.(deletedFiles := e.deletedFiles + [d]), rest))
    else if tag == TAG_ADD_FILE then
      match TakeAdded(s)
      case Err(err) => Err(err)
      case Ok((f, rest)) => Ok((e.(addedFiles := e.addedFiles + [f]), rest))
    else Err(UnknownTag)
  }

  function DecodeFrom(e: VersionEdit, s: Bytes): Result<VersionEdit, EditError>
    decreases |s|
  {
    if s == [] then Ok(e)
    else match TakeTag(e, s[0], s[1..])
      case Err(err) => Err(err)
      case Ok((e', rest)) => DecodeFrom(e', rest)
  }

  function DecodeEdit(s: Bytes): Result<VersionEdit, EditError> {
    DecodeFrom(EMPTY_EDIT, s)
  }

  /** The decoder's cap on an encoded key, and a kind it knows. The encoder checks neither. */
  predicate KeyStorable(k: InternalKey) {
    ValidKind(k.kind) && |k.userKey| + 9 <= MAX_FIELD
  }

  predicate AddStorable(f: FileMetadata) {
    KeyStorable(f.smallestKey) && KeyStorable(f.largestKey)
  }

  predicate EditStorable(e: VersionEdit) {
    forall i :: 0 <= i < |e.addedFiles| ==> AddStorable(e.addedFiles[i])
  }

  /** Counters that are not set read back as zero. */
  function Normal(e: VersionEdit): VersionEdit {
    e.(nextFileID := if e.hasNextFileID then e.nextFileID else 0,
       lastSequence := if e.hasLastSequence then e.lastSequence else 0,
       logNumber := if e.hasLogNumber then e.logNumber else 0)
  }

  lemma {:induction false} TakeCappedOf(b: Bytes, rest: Bytes)
    requires |b| <= MAX_FIELD
    ensures TakeCapped(Field(b) + rest) == Ok((b, rest))
  {
    hide U32, GetU32, TakeU32;
    Assoc(U32(|b|), b, rest);
    TakeU32Of(|b|, b + rest);
    TakeBytesOf(b, rest);
  }

  lemma {:induction false} TakeKeysOf(a: InternalKey, b: InternalKey, rest: Bytes)
    requires KeyStorable(a) && KeyStorable(b)
    ensures TakeKeys(Field(EncodeKey(a)) + Field(EncodeKey(b)) + rest) == Ok(((a, b), rest))
  {
    hide Field, EncodeKey, DecodeKey, TakeCapped;
    Assoc(Field(EncodeKey(a)), Field(EncodeKey(b)), rest);
    TakeCappedOf(EncodeKey(a), Field(EncodeKey(b)) + rest);
    TakeCappedOf(EncodeKey(b), rest);
    KeyRoundTrip(a);
    KeyRoundTrip(b);
  }

  lemma {:induction false} TakeAddedOf(f: FileMetadata, rest: Bytes)
    requires AddStorable(f)
    ensures TakeAdded(EncodeAdded(f)[1..] + rest) == Ok((f, rest))
  {
    hide U32, U64, TakeU32, TakeU64, TakeKeys, Field, EncodeKey;
    var keys := Field(EncodeKey(f.smallestKey)) + Field(EncodeKey(f.largestKey));
    var s3, s2 := keys + rest, U64(f.size) + keys;
    var s1 := U64(f.fileID) + s2;
    assert EncodeAdded(f)[1..] == U32(f.level) + s1;
    Assoc(U32(f.level), s1, rest);
    TakeU32Of(f.level, s1 + rest);
    Assoc(U64(f.fileID), s2, rest);
    TakeU64Of(f.fileID, s2 + rest);
    Assoc(U64(f.size), keys, rest);
    TakeU64Of(f.size, s3);
    TakeKeysOf(f.smallestKey, f.largestKey, rest);
  }

  lemma {:induction false} DecodeAdded(e: VersionEdit, f: FileMetadata, rest: Bytes)
    requires AddStorable(f)
    ensures DecodeFrom(e, EncodeAdded(f) + rest) == DecodeFrom(e.(addedFiles := e.addedFiles + [f]), rest)
  {
    hide TakeAdded;
    var s := EncodeAdded(f) + rest;
    TakeAddedOf(f, rest);
    hide U32, U64, Field, EncodeKey;
    assert s[0] == TAG_ADD_FILE && s[1..] == EncodeAdded(f)[1..] + rest;
  }

  lemma {:induction false} DecodeDeleted(e: VersionEdit, d: DeletedFile, rest: Bytes)
    ensures DecodeFrom(e, EncodeDeleted(d) + rest) == DecodeFrom(e.(deletedFiles := e.deletedFiles + [d]), rest)
  {
    hide U32, U64, TakeU32, TakeU64;
    var s := EncodeDeleted(d) + rest;
    assert s[0] == TAG_DELETE_FILE && s[1..] == U32(d.level) + (U64(d.fileID) + rest);
    TakeU32Of(d.level, U64(d.fileID) + rest);
    TakeU64Of(d.fileID, rest);
  }

  lemma {:induction false} DecodeAdds(e: VersionEdit, fs: seq<FileMetadata>)
    requires forall i :: 0 <= i < |fs| ==> AddStorable(fs[i])
    ensures DecodeFrom(e, EncodeAdds(fs)) == Ok(e.(addedFiles := e.addedFiles + fs))
    decreases fs
  {
    hide TakeTag, EncodeAdded, AddStorable;
    if fs == [] {
      assert e.addedFiles + fs == e.addedFiles;
    } else {
      DecodeAdded(e, fs[0], EncodeAdds(fs[1..]));
      var e' := e.(addedFiles := e.addedFiles + [fs[0]]);
      DecodeAdds(e', fs[1..]);
      assert e.addedFiles + [fs[0]] + fs[1..] == e.addedFiles + fs;
    }
  }

  lemma {:induction false} DecodeDeletes(e: VersionEdit, ds: seq<DeletedFile>, rest: Bytes)
    ensures DecodeFrom(e, EncodeDeletes(ds) + rest) == DecodeFrom(e.(deletedFiles := e.deletedFiles + ds), rest)
    decreases ds
  {
    hide TakeTag, EncodeDeleted, DecodeFrom;
    if ds == [] {
      assert e.deletedFiles + ds == e.deletedFiles && EncodeDeletes(ds) + rest == rest;
    } else {
      Assoc(EncodeDeleted(ds[0]), EncodeDeletes(ds[1..]), rest);
      DecodeDeleted(e, ds[0], EncodeDeletes(ds[1..]) + rest);
      var e' := e.(deletedFiles := e.deletedFiles + [ds[0]]);
      DecodeDeletes(e', ds[1..], rest);
      assert e.deletedFiles + [ds[0]] + ds[1..] == e.deletedFiles + ds;
    }
  }

  /** A counter tag sets its counter; one that is left out changes nothing. */
  lemma {:induction false} DecodeCounter(e: VersionEdit, tag: byte, has: bool, v: uint64, rest: Bytes)
    requires tag == TAG_NEXT_FILE_ID || tag == TAG_LAST_SEQUENCE || tag == TAG_LOG_NUMBER
    ensures DecodeFrom(e, EncodeCounter(tag, has, v) + rest)
         == DecodeFrom(if !has then e
                       else if tag == TAG_NEXT_FILE_ID then e.(nextFileID := v, hasNextFileID := true)
                       else if tag == TAG_LAST_SEQUENCE then e.(lastSequence := v, hasLastSequence := true)
                       else e.(logNumber := v, hasLogNumber := true), rest)
  {
    hide U64, TakeU64;
    var s := EncodeCounter(tag, has, v) + rest;
    if has {
      assert s[0] == tag && s[1..] == U64(v) + rest;
      TakeU64Of(v, rest);
    } else {
      assert s == rest;
    }
  }

  lemma {:induction false} DecodeEncodedEdit(e: VersionEdit)
    requires EditStorable(e)
    ensures DecodeEdit(EncodeEdit(e)) == Ok(Normal(e))
  {
    hide DecodeFrom, EncodeCounter, EncodeDeletes, EncodeAdds, AddStorable;
    var s4 := EncodeDeletes(e.deletedFiles) + EncodeAdds(e.addedFiles);
    var s3 := EncodeCounter(TAG_LOG_NUMBER, e.hasLogNumber, e.logNumber) + s4;
    var s2 := EncodeCounter(TAG_LAST_SEQUENCE, e.hasLastSequence, e.lastSequence) + s3;
    DecodeCounter(EMPTY_EDIT, TAG_NEXT_FILE_ID, e.hasNextFileID, e.nextFileID, s2);
    var e1 := if e.hasNextFileID then EMPTY_EDIT.(nextFileID := e.nextFileID, hasNextFileID := true) else EMPTY_EDIT;
    DecodeCounter(e1, TAG_LAST_SEQUENCE, e.hasLastSequence, e.lastSequence, s3);
    var e2 := if e.hasLastSequence then e1.(lastSequence := e.lastSequence, hasLastSequence := true) else e1;
    DecodeCounter(e2, TAG_LOG_NUMBER, e.hasLogNumber, e.logNumber, s4);
    var e3 := if e.hasLogNumber then e2.(logNumber := e.logNumber, hasLogNumber := true) else e2;
    DecodeDeletes(e3, e.deletedFiles, EncodeAdds(e.addedFiles));
    assert e3.deletedFiles + e.deletedFiles == e.deletedFiles && e3.addedFiles + e.addedFiles == e.addedFiles;
    DecodeAdds(e3.(deletedFiles := e.deletedFiles), e.addedFiles);
  }

  /** Whatever the decoder accepts has keys within its cap. */
  lemma {:induction false} DecodedIsStorable(e: VersionEdit, s: Bytes)
    requires EditStorable(e) && DecodeFrom(e, s).Ok?
    ensures EditStorable(DecodeFrom(e, s).value)
    decreases |s|
  {
    hide TakeU32, TakeU64, TakeDeleted, TakeAdded, AddStorable;
    if s != [] {
      var (e', rest) := TakeTag(e, s[0], s[1..]).value;
      DecodedIsStorable(e', rest);
    }
  }

  /** An edit comes back, unset counters as zero, exactly when every key in it is one the decoder takes. */
  lemma {:induction false} EditRoundTrip(e: VersionEdit)
    ensures DecodeEdit(EncodeEdit(e)) == Ok(Normal(e)) <==> EditStorable(e)
  {
    hide EncodeEdit, DecodeFrom, AddStorable;
    if EditStorable(e) {
      DecodeEncodedEdit(e);
    }
    if DecodeEdit(EncodeEdit(e)) == Ok(Normal(e)) {
      DecodedIsStorable(EMPTY_EDIT, EncodeEdit(e));
    }
  }

  /** A tag that is none of the five is named as such, whatever good fields come before it. */
  lemma {:induction false} UnknownTagRefused(e: VersionEdit, ds: seq<DeletedFile>, tag: byte, rest: Bytes)
    requires tag == 0 || tag > 5
    ensures DecodeFrom(e, EncodeDeletes(ds) + ([tag] + rest)) == Err(UnknownTag)
  {
    DecodeDeletes(e, ds, [tag] + rest);
    assert ([tag] + rest)[1..] == rest;
  }

  // ----- What the decoder refuses

  /** Behind the fixed part of an added file only the keys decide. */
  lemma {:induction false} AfterHead(e: VersionEdit, f: FileMetadata, tail: Bytes)
    ensures TakeKeys(tail).Err? ==> DecodeFrom(e, AddedHead(f) + tail) == Err(TakeKeys(tail).error)
  {
    hide U32, U64, TakeU32, TakeU64, TakeKeys;
    var s := AddedHead(f) + tail;
    assert s[0] == TAG_ADD_FILE && s[1..] == U32(f.level) + (U64(f.fileID) + (U64(f.size) + tail));
    TakeU32Of(f.level, U64(f.fileID) + (U64(f.size) + tail));
    TakeU64Of(f.fileID, U64(f.size) + tail);
    TakeU64Of(f.size, tail);
  }

  /** An added file with a key that is none - too short, or of no known kind - is refused as corrupt. */
  lemma {:induction false} BadKeyRefused(e: VersionEdit, f: FileMetadata, a: Bytes, b: Bytes, rest: Bytes)
    requires |a| <= MAX_FIELD && |b| <= MAX_FIELD && (DecodeKey(a).None? || DecodeKey(b).None?)
    ensures DecodeFrom(e, AddedHead(f) + (Field(a) + (Field(b) + rest))) == Err(CorruptKey)
  {
    hide DecodeFrom, AddedHead, Field, DecodeKey, TakeCapped;
    TakeCappedOf(a, Field(b) + rest);
    TakeCappedOf(b, rest);
    AfterHead(e, f, Field(a) + (Field(b) + rest));
  }

  /** A counter, a delete or an added file that ends too early is refused as truncated, wherever it is cut. */
  lemma {:induction false} CutCounter(e: VersionEdit, tag: byte, s: Bytes)
    requires tag == TAG_NEXT_FILE_ID || tag == TAG_LAST_SEQUENCE || tag == TAG_LOG_NUMBER
    requires |s| < 8
    ensures DecodeFrom(e, [tag] + s) == Err(TruncatedEdit)
  {
    assert ([tag] + s)[1..] == s;
  }

  lemma {:induction false} CutDelete(e: VersionEdit, s: Bytes)
    requires |s| < 12
    ensures DecodeFrom(e, [TAG_DELETE_FILE] + s) == Err(TruncatedEdit)
  {
    assert ([TAG_DELETE_FILE] + s)[1..] == s;
  }

  lemma {:induction false} CutHead(e: VersionEdit, s: Bytes)
    requires |s| < 20
    ensures DecodeFrom(e, [TAG_ADD_FILE] + s) == Err(TruncatedEdit)
  {
    assert ([TAG_ADD_FILE] + s)[1..] == s;
  }

  lemma {:induction false} CutCapped(b: Bytes, n: nat)
    requires |b| <= MAX_FIELD && n < |Field(b)|
    ensures TakeCapped(Field(b)[..n]) == Err(TruncatedEdit)
  {
    hide U32, GetU32;
    if n >= 4 {
      FieldPrefix(b, n);
      TakeU32Of(|b|, b[..n - 4]);
    }
  }

  lemma {:induction false} CutKeys(a: Bytes, b: Bytes, n: nat)
    requires |a| <= MAX_FIELD && |b| <= MAX_FIELD && n < |Field(a)| + |Field(b)|
    ensures TakeKeys((Field(a) + Field(b))[..n]) == Err(TruncatedEdit)
  {
    hide Field, TakeCapped, DecodeKey;
    if n < |Field(a)| {
      assert (Field(a) + Field(b))[..n] == Field(a)[..n];
      CutCapped(a, n);
    } else {
      assert (Field(a) + Field(b))[..n] == Field(a) + Field(b)[..n - |Field(a)|];
      TakeCappedOf(a, Field(b)[..n - |Field(a)|]);
      CutCapped(b, n - |Field(a)|);
    }
  }

  lemma {:induction false} CutAdded(e: VersionEdit, f: FileMetadata, n: nat)
    requires AddStorable(f) && 1 <= n < |EncodeAdded(f)|
    ensures DecodeFrom(e, EncodeAdded(f)[..n]) == Err(TruncatedEdit)
  {
    var a, b := EncodeKey(f.smallestKey), EncodeKey(f.largestKey);
    assert |a| <= MAX_FIELD && |b| <= MAX_FIELD;
    hide U32, U64, Field, EncodeKey, DecodeFrom, TakeKeys;
    var s := EncodeAdded(f);
    assert s == AddedHead(f) + (Field(a) + Field(b)) && s[0] == TAG_ADD_FILE;
    if n < 21 {
      assert s[..n] == [TAG_ADD_FILE] + s[1..n];
      CutHead(e, s[1..n]);
    } else {
      CutKeys(a, b, n - 21);
      assert s[..n] == AddedHead(f) + (Field(a) + Field(b))[..n - 21];
      AfterHead(e, f, (Field(a) + Field(b))[..n - 21]);
    }
  }

  // ----- The imperative encoder and decoder

  /** encodedSize. */
  method EncodedSize(e: VersionEdit) returns (size: nat)
    ensures size == |EncodeEdit(e)|
  {
    size := 0;
    if e.hasNextFileID {
      size := size + 1 + 8;
    }
    if e.hasLastSequence {
      size := size + 1 + 8;
    }
    if e.hasLogNumber {
      size := size + 1 + 8;
    }
    DeletesSize(e.deletedFiles);
    size := size + |e.deletedFiles| * (1 + 4 + 8);
    for i := 0 to |e.addedFiles|
      invariant size + |EncodeAdds(e.addedFiles[i..])| == |EncodeEdit(e)|
    {
      assert e.addedFiles[i..][1..] == e.addedFiles[i + 1..];
      var a := e.addedFiles[i];
      size := size + (1 + 4 + 8 + 8);
      size := size + (4 + (|a.smallestKey.userKey| + 9) + 4 + (|a.largestKey.userKey| + 9));
    }
  }

  lemma {:induction false} DeletesSize(ds: seq<DeletedFile>)
    ensures |EncodeDeletes(ds)| == |ds| * 13
  {
    if ds != [] {
      DeletesSize(ds[1..]);
    }
  }

  /** Encode: sizes the buffer exactly, then writes tag after tag by offset. */
  method Encode(e: VersionEdit) returns (buf: array<byte>)
    ensures fresh(buf) && buf[..] == EncodeEdit(e)
  {
    hide EncodeCounter, EncodeDeletes, EncodeAdds, EncodeEdit;
    var size := EncodedSize(e);
    buf := new byte[size];
    EditFlat(e);
    var offset := 0;
    offset := WriteCounterTag(buf, offset, TAG_NEXT_FILE_ID, e.hasNextFileID, e.nextFileID);
    offset := WriteCounterTag(buf, offset, TAG_LAST_SEQUENCE, e.hasLastSequence, e.lastSequence);
    offset := WriteCounterTag(buf, offset, TAG_LOG_NUMBER, e.hasLogNumber, e.logNumber);
    offset := WriteDeletes(buf, offset, e.deletedFiles);
    offset := WriteAdds(buf, offset, e.addedFiles);
    assert buf[..offset] == buf[..];
  }

  lemma {:induction false} EditFlat(e: VersionEdit)
    ensures EncodeEdit(e)
            == [] + EncodeCounter(TAG_NEXT_FILE_ID, e.hasNextFileID, e.nextFileID)
               + EncodeCounter(TAG_LAST_SEQUENCE, e.hasLastSequence, e.lastSequence)
               + EncodeCounter(TAG_LOG_NUMBER, e.hasLogNumber, e.logNumber)
               + EncodeDeletes(e.deletedFiles) + EncodeAdds(e.addedFiles)
  {
    hide EncodeCounter, EncodeDeletes, EncodeAdds;
  }

  method WriteCounterTag(buf: array<byte>, start: nat, tag: byte, has: bool, value: uint64) returns (offset: nat)
    requires start + |EncodeCounter(tag, has, value)| <= buf.Length
    modifies buf
    ensures offset == start + |EncodeCounter(tag, has, value)|
    ensures buf[..offset] == old(buf[..start]) + EncodeCounter(tag, has, value)
  {
    hide U64;
    if !has {
      return start;
    }
    buf[start] := tag;
    assert buf[..start + 1] == old(buf[..start]) + [tag];
    PutUint64(buf, start + 1, value);
    Assoc(old(buf[..start]), [tag], U64(value));
    offset := start + 9;
  }

  method WriteDeletes(buf: array<byte>, start: nat, ds: seq<DeletedFile>) returns (offset: nat)
    requires start + |EncodeDeletes(ds)| <= buf.Length
    modifies buf
    ensures offset == start + |EncodeDeletes(ds)|
    ensures buf[..offset] == old(buf[..start]) + EncodeDeletes(ds)
  {
    hide EncodeDeleted;
    ghost var all := buf[..start] + EncodeDeletes(ds);
    offset := start;
    for i := 0 to |ds|
      invariant offset + |EncodeDeletes(ds[i..])| == |all| <= buf.Length
      invariant buf[..offset] + EncodeDeletes(ds[i..]) == all
    {
      assert ds[i..][1..] == ds[i + 1..];
      Assoc(buf[..offset], EncodeDeleted(ds[i]), EncodeDeletes(ds[i + 1..]));
      offset := WriteDeletedFile(buf, offset, ds[i]);
    }
  }

  method WriteDeletedFile(buf: array<byte>, start: nat, d: DeletedFile) returns (offset: nat)
    requires start + |EncodeDeleted(d)| <= buf.Length
    modifies buf
    ensures offset == start + |EncodeDeleted(d)|
    ensures buf[..offset] == old(buf[..start]) + EncodeDeleted(d)
  {
    hide U32, U64;
    buf[start] := TAG_DELETE_FILE;
    assert buf[..start + 1] == old(buf[..start]) + [TAG_DELETE_FILE];
    PutUint32(buf, start + 1, d.level);
    PutUint64(buf, start + 5, d.fileID);
    offset := start + 13;
  }

  method WriteAdds(buf: array<byte>, start: nat, fs: seq<FileMetadata>) returns (offset: nat)
    requires start + |EncodeAdds(fs)| <= buf.Length
    modifies buf
    ensures offset == start + |EncodeAdds(fs)|
    ensures buf[..offset] == old(buf[..start]) + EncodeAdds(fs)
  {
    hide EncodeAdded;
    ghost var all := buf[..start] + EncodeAdds(fs);
    offset := start;
    for i := 0 to |fs|
      invariant offset + |EncodeAdds(fs[i..])| == |all| <= buf.Length
      invariant buf[..offset] + EncodeAdds(fs[i..]) == all
    {
      assert fs[i..][1..] == fs[i + 1..];
      Assoc(buf[..offset], EncodeAdded(fs[i]), EncodeAdds(fs[i + 1..]));
      offset := WriteAddedFile(buf, offset, fs[i]);
    }
  }

  /** The part of an added file before its keys. */
  function AddedHead(a: FileMetadata): (r: Bytes)
    ensures |r| == 21
  {
    [TAG_ADD_FILE] + U32(a.level) + U64(a.fileID) + U64(a.size)
  }

  lemma {:induction false} AddedFlat(before: Bytes, a: FileMetadata)
    ensures before + EncodeAdded(a)
            == before + AddedHead(a) + Field(EncodeKey(a.smallestKey)) + Field(EncodeKey(a.largestKey))
    ensures |EncodeAdded(a)| == 21 + |Field(EncodeKey(a.smallestKey))| + |Field(EncodeKey(a.largestKey))|
  {
    hide U32, U64, Field;
  }

  method WriteAddedFile(buf: array<byte>, start: nat, a: FileMetadata) returns (offset: nat)
    requires start + |EncodeAdded(a)| <= buf.Length
    modifies buf
    ensures offset == start + |EncodeAdded(a)|
    ensures buf[..offset] == old(buf[..start]) + EncodeAdded(a)
  {
    hide U32, U64, Field, EncodeAdded;
    AddedFlat(buf[..start], a);
    ghost var head := buf[..start] + AddedHead(a);
    buf[start] := TAG_ADD_FILE;
    PutUint32(buf, start + 1, a.level);
    PutUint64(buf, start + 5, a.fileID);
    PutUint64(buf, start + 13, a.size);
    assert buf[..start + 21] == head;
    hide AddedHead;
    var smallest := Keys.Encode(a.smallestKey);
    var largest := Keys.Encode(a.largestKey);
    offset := WriteLengthPrefixedBytes(buf, start + 21, smallest[..]);
    offset := WriteLengthPrefixedBytes(buf, offset, largest[..]);
  }

  method WriteLengthPrefixedBytes(buf: array<byte>, start: nat, b: Bytes) returns (offset: nat)
    requires start + |Field(b)| <= buf.Length
    modifies buf
    ensures offset == start + |Field(b)|
    ensures buf[..offset] == old(buf[..start]) + Field(b)
  {
    PutUint32(buf, start, ToUint32(|b|));
    PutBytes(buf, start + 4, b);
    offset := start + 4 + |b|;
  }

  method ReadLengthPrefixedBytes(r: ByteReader) returns (res: Result<Bytes, EditError>)
    requires r.Valid()
    modifies r
    ensures r.Valid()
    ensures match TakeCapped(old(r.Rest()))
            case Ok((b, rest)) => res == Ok(b) && r.Rest() == rest
            case Err(e) => res == Err(e)
  {
    hide GetU32;
    var n := r.ReadUint32();
    if n.None? {
      return Err(TruncatedEdit);
    }
    if n.value > MAX_FIELD {
      return Err(EditFieldTooLarge);
    }
    var b := r.ReadBytes(n.value);
    if b.None? {
      return Err(TruncatedEdit);
    }
    res := Ok(b.value);
  }

  method ReadAddedFile(r: ByteReader) returns (res: Result<FileMetadata, EditError>)
    requires r.Valid()
    modifies r
    ensures r.Valid()
    ensures match TakeAdded(old(r.Rest()))
            case Ok((f, rest)) => res == Ok(f) && r.Rest() == rest
            case Err(e) => res == Err(e)
  {
    hide TakeU32, TakeU64, TakeCapped, DecodeKey;
    var level := r.ReadUint32();
    if level.None? {
      return Err(TruncatedEdit);
    }
    var fileID := r.ReadUint64();
    if fileID.None? {
      return Err(TruncatedEdit);
    }
    var size := r.ReadUint64();
    if size.None? {
      return Err(TruncatedEdit);
    }
    var smallest := ReadLengthPrefixedBytes(r);
    if smallest.Err? {
      return Err(smallest.error);
    }
    var largest := ReadLengthPrefixedBytes(r);
    if largest.Err? {
      return Err(largest.error);
    }
    var smallestKey := DecodeKey(smallest.value);
    if smallestKey.None? {
      return Err(CorruptKey);
    }
    var largestKey := DecodeKey(largest.value);
    if largestKey.None? {
      return Err(CorruptKey);
    }
    res := Ok(FileMetadata(level.value, fileID.value, size.value, smallestKey.value, largestKey.value));
  }

  method ReadDeletedFile(r: ByteReader) returns (res: Result<DeletedFile, EditError>)
    requires r.Valid()
    modifies r
    ensures r.Valid()
    ensures match TakeDeleted(old(r.Rest()))
            case Ok((d, rest)) => res == Ok(d) && r.Rest() == rest
            case Err(e) => res == Err(e)
  {
    hide TakeU32, TakeU64;
    var level := r.ReadUint32();
    if level.None? {
      return Err(TruncatedEdit);
    }
    var fileID := r.ReadUint64();
    if fileID.None? {
      return Err(TruncatedEdit);
    }
    res := Ok(DeletedFile(level.value, fileID.value));
  }

  /** decodeTag: reads one tag's payload into the edit. */
  method DecodeTag(r: ByteReader, edit: VersionEdit, tag: byte) returns (res: Result<VersionEdit, EditError>)
    requires r.Valid()
    modifies r
    ensures r.Valid()
    ensures match TakeTag(edit, tag, old(r.Rest()))
            case Ok((e, rest)) => res == Ok(e) && r.Rest() == rest
            case Err(e) => res == Err(e)
  {
    hide TakeU64, TakeDeleted, TakeAdded;
    if tag == TAG_NEXT_FILE_ID || tag == TAG_LAST_SEQUENCE || tag == TAG_LOG_NUMBER {
      var v := r.ReadUint64();
      if v.None? {
        return Err(TruncatedEdit);
      }
      if tag == TAG_NEXT_FILE_ID {
        return Ok(edit.(nextFileID := v.value, hasNextFileID := true));
      } else if tag == TAG_LAST_SEQUENCE {
        return Ok(edit.(lastSequence := v.value, hasLastSequence := true));
      }
      return Ok(edit.(logNumber := v.value, hasLogNumber := true));
    } else if tag == TAG_DELETE_FILE {
      var d := ReadDeletedFile(r);
      if d.Err? {
        return Err(d.error);
      }
      return Ok(edit.(deletedFiles := edit.deletedFiles + [d.value]));
    } else if tag == TAG_ADD_FILE {
      var f := ReadAddedFile(r);
      if f.Err? {
        return Err(f.error);
      }
      return Ok(edit.(addedFiles := edit.addedFiles + [f.value]));
    }
    res := Err(UnknownTag);
  }

  method DecodeVersionEdit(data: Bytes) returns (res: Result<VersionEdit, EditError>)
    ensures res == DecodeEdit(data)
  {
    hide TakeTag;
    var r := new ByteReader(data);
    var edit := EMPTY_EDIT;
    while r.Remaining() > 0
      invariant r.Valid()
      invariant DecodeFrom(edit, r.Rest()) == DecodeEdit(data)
      decreases |r.Rest()|
    {
      ghost var s := r.Rest();
      var tag := r.ReadByte();
      var next := DecodeTag(r, edit, tag.value);
      if next.Err? {
        return Err(next.error);
      }
      edit := next.value;
    }
    res := Ok(edit);
  }
}
