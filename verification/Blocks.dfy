/** Data blocks of an SSTable: entries back to back, then a checksum. */
module Blocks {
  import opened Basics
  import opened Coding
  import opened Keys
  import opened Runs

  datatype TableError =
    | FileTooSmall | BadMagic | UnsupportedVersion | CorruptFooter
    | CorruptIndex | IndexChecksumMismatch | CorruptBlock | BlockChecksumMismatch
    | WriterClosed | OutOfOrderKey | IteratorClosed | InvalidBlockSize

  /** [keyLen:4][key][valueLen:4][value] */
  function EncodeEntry(e: Entry): Bytes {
    Field(EncodeKey(e.key)) + Field(e.value)
  }

  function EncodeEntries(es: seq<Entry>): Bytes {
    if es == [] then [] else EncodeEntry(es[0]) + EncodeEntries(es[1..])
  }

  /** The size Add compares with the target before it encodes anything. */
  function EncodedEntrySize(e: Entry): (n: nat)
    ensures n == |EncodeEntry(e)|
  {
    4 + |e.key.userKey| + 9 + 4 + |e.value|
  }

  /** One entry off the front; every failure is ErrCorruptBlock. */
  function TakeEntry(s: Bytes): (r: Option<(Entry, Bytes)>)
    ensures r.Some? ==> |r.value.1| < |s|
  {
    match TakeField(s)
    case None => None
    case Some((keyBytes, rest)) =>
      match DecodeKey(keyBytes)
      case None => None
      case Some(key) =>
        match TakeField(rest)
        case None => None
        case Some((value, rest')) => Some((Entry(key, value), rest'))
  }

  function DecodeEntries(s: Bytes): Result<seq<Entry>, TableError>
    decreases |s|
  {
    if s == [] then Ok([])
    else match TakeEntry(s)
      case None => Err(CorruptBlock)
      case Some((e, rest)) => Prepend([e], DecodeEntries(rest))
  }

  function Prepend(es: seq<Entry>, r: Result<seq<Entry>, TableError>): Result<seq<Entry>, TableError> {
    if r.Err? then r else Ok(es + r.value)
  }

  lemma {:induction false} PrependPrepend(a: seq<Entry>, b: seq<Entry>, r: Result<seq<Entry>, TableError>)
    ensures Prepend(a, Prepend(b, r)) == Prepend(a + b, r)
    ensures Prepend([], r) == r
    ensures Prepend(a, Ok([])) == Ok(a)
  {
    assert a + [] == a;
    if r.Ok? {
      assert a + (b + r.value) == a + b + r.value;
      assert [] + r.value == r.value;
    }
  }

  /** Kind known to the format and lengths that fit the 32 bits they are written in. */
  predicate Storable(e: Entry) {
    ValidKind(e.key.kind) && |e.key.userKey| + 9 < 0x1_0000_0000 && |e.value| < 0x1_0000_0000
  }

  predicate AllStorable(es: seq<Entry>)
  {
    es == [] || (Storable(es[0]) && AllStorable(es[1..]))
  }

  lemma {:induction false} AllStorableIs(es: seq<Entry>)
    ensures AllStorable(es) <==> forall e :: e in es ==> Storable(e)
  {
    if es != [] {
      AllStorableIs(es[1..]);
      assert es == [es[0]] + es[1..];
    }
  }

  lemma {:induction false} TakeEntryOf(e: Entry, rest: Bytes)
    requires Storable(e)
    ensures TakeEntry(EncodeEntry(e) + rest) == Some((e, rest))
  {
    hide U32, DecodeKey, EncodeKey, TakeField, Field;
    Assoc(Field(EncodeKey(e.key)), Field(e.value), rest);
    TakeFieldOf(EncodeKey(e.key), Field(e.value) + rest);
    KeyRoundTrip(e.key);
    TakeFieldOf(e.value, rest);
  }

  lemma {:induction false} TakeEntryCanonical(s: Bytes)
    requires TakeEntry(s).Some?
    ensures var (e, rest) := TakeEntry(s).value;
            s == EncodeEntry(e) + rest && Storable(e)
  {
    hide U32, DecodeKey, EncodeKey, TakeField, Field;
    var (e, rest) := TakeEntry(s).value;
    TakeFieldCanonical(s);
    var (keyBytes, tail) := TakeField(s).value;
    KeyCanonical(keyBytes);
    TakeFieldCanonical(tail);
    Assoc(Field(EncodeKey(e.key)), Field(e.value), rest);
  }

  lemma {:induction false} DecodeEncoded(es: seq<Entry>)
    requires AllStorable(es)
    ensures DecodeEntries(EncodeEntries(es)) == Ok(es)
  {
    hide TakeEntry, EncodeEntry;
    if es != [] {
      TakeEntryOf(es[0], EncodeEntries(es[1..]));
      DecodeEncoded(es[1..]);
      assert EncodeEntry(es[0]) != [] by { EntryNotEmpty(es[0]); }
      assert [es[0]] + es[1..] == es;
    }
  }

  lemma {:induction false} EntryNotEmpty(e: Entry)
    ensures |EncodeEntry(e)| >= 17
  {
  }

  /** A payload that is no sequence of entries is corrupt, wherever it goes wrong. */
  lemma {:induction false} DecodeEntriesErrors(s: Bytes)
    ensures DecodeEntries(s).Err? ==> DecodeEntries(s) == Err(CorruptBlock)
    decreases |s|
  {
    hide TakeEntry;
    if s != [] && TakeEntry(s).Some? {
      DecodeEntriesErrors(TakeEntry(s).value.1);
    }
  }

  /** Whatever the block decoder accepts is the encoding of what it returns. */
  lemma {:induction false} DecodeEntriesCanonical(s: Bytes)
    requires DecodeEntries(s).Ok?
    ensures var es := DecodeEntries(s).value;
            s == EncodeEntries(es) && AllStorable(es)
    decreases |s|
  {
    hide TakeEntry, EncodeEntry, Storable;
    if s != [] {
      TakeEntryCanonical(s);
      var (e, rest) := TakeEntry(s).value;
      DecodeEntriesCanonical(rest);
      var es := DecodeEntries(s).value;
      assert es[1..] == DecodeEntries(rest).value;
    }
  }

  /** Entries come back from a block payload exactly when each of them can be stored. */
  lemma {:induction false} EntriesRoundTrip(es: seq<Entry>)
    ensures DecodeEntries(EncodeEntries(es)) == Ok(es) <==> AllStorable(es)
  {
    if AllStorable(es) {
      DecodeEncoded(es);
    }
    if DecodeEntries(EncodeEntries(es)) == Ok(es) {
      DecodeEntriesCanonical(EncodeEntries(es));
    }
  }

  lemma {:induction false} EncodeEntriesConcat(a: seq<Entry>, b: seq<Entry>)
    ensures EncodeEntries(a + b) == EncodeEntries(a) + EncodeEntries(b)
  {
    hide EncodeEntry;
    if a == [] {
      assert a + b == b;
    } else {
      assert (a + b)[1..] == a[1..] + b;
      EncodeEntriesConcat(a[1..], b);
      Assoc(EncodeEntry(a[0]), EncodeEntries(a[1..]), EncodeEntries(b));
    }
  }

  lemma {:induction false} EncodeEntriesSnoc(es: seq<Entry>, e: Entry)
    ensures EncodeEntries(es + [e]) == EncodeEntries(es) + EncodeEntry(e)
  {
    hide EncodeEntry;
    EncodeEntriesConcat(es, [e]);
    assert [e][1..] == [] && EncodeEntries([e]) == EncodeEntry(e) + [] == EncodeEntry(e);
  }

  /** Payload and checksum trailer: the form of data blocks and of the index block. */
  function Seal(crc: Checksum, payload: Bytes): (s: Bytes)
    ensures |s| == |payload| + 4
  {
    payload + U32(crc(payload))
  }

  /** The payload of a sealed block, None when the checksum does not match; too short a block is the caller's error. */
  function Unseal(crc: Checksum, raw: Bytes): Option<Bytes>
    requires |raw| >= 4
  {
    var n := |raw| - 4;
    if GetU32(raw[n..]) != crc(raw[..n]) then None else Some(raw[..n])
  }

  lemma {:induction false} UnsealOfSealed(crc: Checksum, payload: Bytes)
    ensures Unseal(crc, Seal(crc, payload)) == Some(payload)
  {
    hide U32, GetU32;
    var s := Seal(crc, payload);
    assert s[..|payload|] == payload && s[|payload|..] == U32(crc(payload)) + [];
    U32RoundTrip(crc(payload), []);
  }

  function VerifyBlockChecksum(crc: Checksum, raw: Bytes): Result<Bytes, TableError> {
    if |raw| < 4 then Err(CorruptBlock)
    else match Unseal(crc, raw)
      case None => Err(BlockChecksumMismatch)
      case Some(payload) => Ok(payload)
  }

  /** A block is accepted exactly when its last four bytes spell the checksum of the bytes before them. */
  lemma {:induction false} ChecksumDecides(crc: Checksum, raw: Bytes)
    ensures |raw| < 4 ==> VerifyBlockChecksum(crc, raw) == Err(CorruptBlock)
    ensures |raw| >= 4 ==>
              var n := |raw| - 4;
              && (BigEndian(raw[n..]) == crc(raw[..n]) ==> VerifyBlockChecksum(crc, raw) == Ok(raw[..n]))
              && (BigEndian(raw[n..]) != crc(raw[..n]) ==> VerifyBlockChecksum(crc, raw) == Err(BlockChecksumMismatch))
  {
    if |raw| >= 4 {
      FourDigits(raw[|raw| - 4..]);
    }
  }

  /** In other words: what is accepted is a sealed payload, and every sealed payload is. */
  lemma {:induction false} SealedIff(crc: Checksum, raw: Bytes, payload: Bytes)
    ensures VerifyBlockChecksum(crc, raw) == Ok(payload) <==> raw == Seal(crc, payload)
  {
    hide U32, GetU32;
    UnsealOfSealed(crc, payload);
    if |raw| >= 4 {
      UnsealCanonical(crc, raw);
    }
  }

  lemma {:induction false} UnsealCanonical(crc: Checksum, raw: Bytes)
    requires |raw| >= 4
    ensures Unseal(crc, raw).Some? ==> raw == Seal(crc, Unseal(crc, raw).value)
  {
    hide U32, GetU32;
    var n := |raw| - 4;
    U32Canonical(raw[n..]);
    assert raw[n..][4..] == [] && raw == raw[..n] + raw[n..];
    assert U32(GetU32(raw[n..])) + [] == U32(GetU32(raw[n..]));
  }

  method DecodeBlockEntries(payload: Bytes) returns (res: Result<seq<Entry>, TableError>)
    ensures res == DecodeEntries(payload)
  {
    hide TakeEntry;
    var br := new ByteReader(payload);
    var entries := [];
    PrependPrepend([], [], DecodeEntries(payload));
    while br.Remaining() > 0
      invariant br.Valid()
      invariant DecodeEntries(payload) == Prepend(entries, DecodeEntries(br.Rest()))
      decreases |br.Rest()|
    {
      ghost var s := br.Rest();
      var e := DecodeBlockEntry(br);
      if e.None? {
        return Err(CorruptBlock);
      }
      PrependPrepend(entries, [e.value], DecodeEntries(br.Rest()));
      entries := entries + [e.value];
    }
    PrependPrepend(entries, [], Ok([]));
    res := Ok(entries);
  }

  method DecodeBlockEntry(br: ByteReader) returns (e: Option<Entry>)
    requires br.Valid()
    modifies br
    ensures br.Valid()
    ensures match TakeEntry(old(br.Rest()))
            case Some((v, rest)) => e == Some(v) && br.Rest() == rest
            case None => e == None
  {
    hide GetU32, DecodeKey;
    var keyLen := br.ReadUint32();
    if keyLen.None? {
      return None;
    }
    var keyBytes := br.ReadBytes(keyLen.value);
    if keyBytes.None? {
      return None;
    }
    var key := DecodeKey(keyBytes.value);
    if key.None? {
      return None;
    }
    var valueLen := br.ReadUint32();
    if valueLen.None? {
      return None;
    }
    var value := br.ReadBytes(valueLen.value);
    if value.None? {
      return None;
    }
    e := Some(Entry(key.value, value.value));
  }

  class BlockBuilder {
    var buf: Bytes
    var entryCount: uint32
    var firstKey: Option<InternalKey>
    var lastKey: Option<InternalKey>
    var hasEntries: bool

    /** What has been added since the last Reset. */
    ghost var entries: seq<Entry>

    ghost predicate Valid()
      reads this
    {
      && buf == EncodeEntries(entries)
      && entryCount == ToUint32(|entries|)
      && hasEntries == (entries != [])
      && (entries != [] ==> firstKey == Some(entries[0].key) && lastKey == Some(entries[|entries| - 1].key))
      && (entries == [] ==> firstKey == None && lastKey == None)
    }

    constructor ()
      ensures Valid() && entries == []
    {
      buf, entryCount, firstKey, lastKey, hasEntries, entries := [], 0, None, None, false, [];
    }

    method Add(key: InternalKey, value: Bytes)
      requires Valid()
      modifies this
      ensures Valid() && entries == old(entries) + [Entry(key, value)]
      ensures |buf| == old(|buf|) + EncodedEntrySize(Entry(key, value))
    {
      hide U32, EncodeKey, Field, EncodeEntries, ToUint32;
      var encoded := Encode(key);
      ghost var e := Entry(key, value);
      EncodeEntriesSnoc(entries, e);
      BumpUint32(|entries|);
      assert EncodeEntry(e) == Field(encoded[..]) + Field(value);
      Assoc(buf, Field(encoded[..]), Field(value));
      buf := buf + Field(encoded[..]) + Field(value);
      if !hasEntries {
        firstKey, hasEntries := Some(key), true;
      }
      lastKey := Some(key);
      entryCount := ToUint32(entryCount + 1);
      entries := entries + [e];
    }

    /** Seals the buffer in place and hands it out; only Reset makes the builder usable again. */
    method Finish(crc: Checksum) returns (block: Bytes)
      requires Valid()
      modifies this
      ensures block == Seal(crc, EncodeEntries(old(entries)))
      ensures buf == block && entries == old(entries) && lastKey == old(lastKey) && hasEntries == old(hasEntries)
    {
      buf := buf + U32(crc(buf));
      block := buf;
    }

    method Reset()
      modifies this
      ensures Valid() && entries == []
    {
      buf, entryCount, firstKey, lastKey, hasEntries, entries := [], 0, None, None, false, [];
    }
  }
}
