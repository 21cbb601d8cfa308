/**
 * The record framing that the write-ahead log and the manifest share, and what a whole log means.
 * The two logs differ in their magic only, so everything here is said for any format.
 */
module Records {
  import opened Basics
  import opened Coding

  const RECORD_VERSION: byte := 1
  const TYPE_FULL: byte := 1
  const HEADER_SIZE := 18
  const DEFAULT_MAX_PAYLOAD: uint32 := 0x400_0000

  /** ASCII "BEACHWAL" */
  const WAL_MAGIC: Bytes := [0x42, 0x45, 0x41, 0x43, 0x48, 0x57, 0x41, 0x4C]

  /** ASCII "BEACHMAN" */
  const MANIFEST_MAGIC: Bytes := [0x42, 0x45, 0x41, 0x43, 0x48, 0x4D, 0x41, 0x4E]

  datatype RecordError =
    Truncated | BadHeader | BadMagic | UnsupportedVersion | UnsupportedRecordType | RecordTooLarge | BadChecksum

  datatype Format = Format(magic: Bytes, maxPayload: uint32, crc: Checksum) {
    ghost predicate Valid() {
      |magic| == 8
    }
  }

  /** A limit of zero means the default; a magic that is not 8 bytes is refused. */
  function NewFormat(magic: Bytes, maxPayload: uint32, crc: Checksum): (r: Option<Format>)
    ensures r.Some? <==> |magic| == 8
    ensures r.Some? ==> r.value.Valid() && r.value.magic == magic && r.value.crc == crc
    ensures r.Some? ==> r.value.maxPayload == if maxPayload == 0 then 64 * 1024 * 1024 else maxPayload
  {
    if |magic| != 8 then None
    else Some(Format(magic, if maxPayload == 0 then DEFAULT_MAX_PAYLOAD else maxPayload, crc))
  }

  /** The write-ahead log's framing. */
  function WalFormat(crc: Checksum): (f: Format)
    ensures f.Valid() && f.maxPayload == 64 * 1024 * 1024
  {
    NewFormat(WAL_MAGIC, DEFAULT_MAX_PAYLOAD, crc).value
  }

  /** The manifest's: the same, under another magic. */
  function ManifestFormat(crc: Checksum): (f: Format)
    ensures f.Valid() && f.maxPayload == 64 * 1024 * 1024
  {
    NewFormat(MANIFEST_MAGIC, DEFAULT_MAX_PAYLOAD, crc).value
  }

  /** magic, version, type, payload length cut to 32 bits, payload checksum. */
  function Header(f: Format, payload: Bytes): (h: Bytes)
    requires f.Valid()
    ensures |h| == HEADER_SIZE
  {
    f.magic + [RECORD_VERSION, TYPE_FULL] + U32(ToUint32(|payload|)) + U32(f.crc(payload))
  }

  function Record(f: Format, payload: Bytes): (r: Bytes)
    requires f.Valid()
    ensures |r| == HEADER_SIZE + |payload|
  {
    Header(f, payload) + payload
  }

  /** The limit is compared with the length after it was cut to 32 bits. */
  function EncodeRecord(f: Format, payload: Bytes): Result<Bytes, RecordError>
    requires f.Valid()
  {
    if ToUint32(|payload|) > f.maxPayload then Err(RecordTooLarge) else Ok(Record(f, payload))
  }

  /** Payload length and checksum. */
  function DecodeHeader(f: Format, data: Bytes): Result<(uint32, uint32), RecordError>
    requires f.Valid()
  {
    if |data| < HEADER_SIZE then Err(Truncated)
    else if |data| > HEADER_SIZE then Err(BadHeader)
    else if data[..8] != f.magic then Err(BadMagic)
    else if data[8] != RECORD_VERSION then Err(UnsupportedVersion)
    else if data[9] != TYPE_FULL then Err(UnsupportedRecordType)
    else if GetU32(data[10..]) > f.maxPayload then Err(RecordTooLarge)
    else Ok((GetU32(data[10..]), GetU32(data[14..])))
  }

  /** What one call of Next finds at the front of the remaining stream. */
  datatype Step = Rec(payload: Bytes, rest: Bytes) | Eof | Torn | Bad(error: RecordError)

  function NextRecord(f: Format, s: Bytes): Step
    requires f.Valid()
  {
    if s == [] then Eof
    else if |s| < HEADER_SIZE then Torn
    else match DecodeHeader(f, s[..HEADER_SIZE])
      case Err(e) => Bad(e)
      case Ok((length, crc)) =>
        var body := s[HEADER_SIZE..];
        if |body| < length then Torn
        else if f.crc(body[..length]) != crc then Bad(BadChecksum)
        else Rec(body[..length], body[length..])
  }

  /** A whole pass over a log: the payloads read, the offset after the last good record, and why it stopped. */
  datatype Scan = Scan(payloads: seq<Bytes>, valid: nat, end: Step)

  function ReadLog(f: Format, s: Bytes): (r: Scan)
    requires f.Valid()
    ensures r.valid <= |s| && !r.end.Rec?
    decreases |s|
  {
    match NextRecord(f, s)
    case Rec(p, rest) =>
      var more := ReadLog(f, rest);
      Scan([p] + more.payloads, HEADER_SIZE + |p| + more.valid, more.end)
    case end => Scan([], 0, end)
  }

  function EncodeAll(f: Format, payloads: seq<Bytes>): Bytes
    requires f.Valid()
  {
    if payloads == [] then [] else Record(f, payloads[0]) + EncodeAll(f, payloads[1..])
  }

  predicate Allowed(f: Format, payload: Bytes) {
    |payload| <= f.maxPayload
  }

  predicate AllAllowed(f: Format, payloads: seq<Bytes>) {
    payloads == [] || (Allowed(f, payloads[0]) && AllAllowed(f, payloads[1..]))
  }

  lemma {:induction false} HeaderFields(f: Format, payload: Bytes)
    requires f.Valid()
    ensures var h := Header(f, payload);
            && h[..8] == f.magic && h[8] == RECORD_VERSION && h[9] == TYPE_FULL
            && GetU32(h[10..]) == ToUint32(|payload|) && GetU32(h[14..]) == f.crc(payload)
  {
    hide GetU32, U32;
    var h := Header(f, payload);
    assert h[10..] == U32(ToUint32(|payload|)) + U32(f.crc(payload));
    U32RoundTrip(ToUint32(|payload|), U32(f.crc(payload)));
    assert h[14..] == U32(f.crc(payload)) + [];
    U32RoundTrip(f.crc(payload), []);
  }

  lemma {:induction false} HeaderDecodes(f: Format, payload: Bytes)
    requires f.Valid() && Allowed(f, payload)
    ensures DecodeHeader(f, Header(f, payload)) == Ok((|payload|, f.crc(payload)))
  {
    HeaderFields(f, payload);
    hide GetU32, Header;
  }

  lemma {:induction false} Front(b: Bytes, rest: Bytes)
    ensures (b + rest)[..|b|] == b && (b + rest)[|b|..] == rest
  {
  }

  /** A record is read back whatever follows it. */
  lemma {:induction false} NextOfRecord(f: Format, payload: Bytes, rest: Bytes)
    requires f.Valid() && Allowed(f, payload)
    ensures NextRecord(f, Record(f, payload) + rest) == Rec(payload, rest)
  {
    var h := Header(f, payload);
    HeaderDecodes(f, payload);
    hide DecodeHeader, Header;
    Assoc(h, payload, rest);
    Front(h, payload + rest);
    Front(payload, rest);
  }

  /** A record cut anywhere inside reads as torn, a record cut away whole as the end of the log. */
  lemma {:induction false} NextOfCutRecord(f: Format, payload: Bytes, n: nat)
    requires f.Valid() && Allowed(f, payload) && n < |Record(f, payload)|
    ensures NextRecord(f, Record(f, payload)[..n]) == if n == 0 then Eof else Torn
  {
    hide GetU32, U32;
    if n >= HEADER_SIZE {
      HeaderFields(f, payload);
      assert Record(f, payload)[..n][..HEADER_SIZE] == Header(f, payload);
    }
  }

  /** An accepted header is magic, version and type, then the two fields that were read from it. */
  lemma {:induction false} HeaderCanonical(f: Format, h: Bytes)
    requires f.Valid() && DecodeHeader(f, h).Ok?
    ensures var (length, crc) := DecodeHeader(f, h).value;
            h == f.magic + [RECORD_VERSION, TYPE_FULL] + U32(length) + U32(crc)
  {
    hide GetU32, U32;
    U32Canonical(h[10..]);
    U32Canonical(h[14..]);
    assert h[10..][4..] == h[14..] && h[14..][4..] == [];
    assert h == h[..8] + [h[8], h[9]] + h[10..];
  }

  /** The pieces of an accepted record. */
  lemma {:induction false} RecordParts(f: Format, s: Bytes)
    requires f.Valid() && NextRecord(f, s).Rec?
    ensures |s| >= HEADER_SIZE
    ensures var r := NextRecord(f, s);
            && DecodeHeader(f, s[..HEADER_SIZE]) == Ok((|r.payload|, f.crc(r.payload)))
            && s[HEADER_SIZE..] == r.payload + r.rest
  {
    hide DecodeHeader;
  }

  lemma {:induction false} AcceptedLength(f: Format, h: Bytes)
    requires f.Valid() && DecodeHeader(f, h).Ok?
    ensures DecodeHeader(f, h).value.0 <= f.maxPayload
  {
    hide GetU32;
  }

  /** Whatever Next accepts is the encoding of what it returns. */
  lemma {:induction false} NextCanonical(f: Format, s: Bytes)
    requires f.Valid() && NextRecord(f, s).Rec?
    ensures var r := NextRecord(f, s);
            Allowed(f, r.payload) && s == Record(f, r.payload) + r.rest
  {
    hide NextRecord, DecodeHeader, U32;
    RecordParts(f, s);
    var r, h := NextRecord(f, s), s[..HEADER_SIZE];
    HeaderCanonical(f, h);
    AcceptedLength(f, h);
    Assoc(h, r.payload, r.rest);
    assert s == h + s[HEADER_SIZE..];
  }

  /** A payload the encoder lets through is read back exactly when its length fits 32 bits. */
  lemma {:induction false} RecordRoundTrip(f: Format, payload: Bytes, rest: Bytes)
    requires f.Valid() && EncodeRecord(f, payload).Ok?
    ensures NextRecord(f, EncodeRecord(f, payload).value + rest) == Rec(payload, rest) <==> |payload| < 0x1_0000_0000
  {
    hide NextRecord, Record;
    if |payload| < 0x1_0000_0000 {
      NextOfRecord(f, payload, rest);
    }
    if NextRecord(f, Record(f, payload) + rest) == Rec(payload, rest) {
      NextCanonical(f, Record(f, payload) + rest);
    }
  }

  // ----- What Next makes of any bytes at all

  /** The length that a header announces. */
  function Announced(s: Bytes): nat
    requires |s| >= 18
  {
    BigEndian(s[10..14])
  }

  /** A header of this format that is within its limit. */
  predicate Framed(f: Format, s: Bytes) {
    |s| >= 18 && s[..8] == f.magic && s[8] == 1 && s[9] == 1 && Announced(s) <= f.maxPayload
  }

  /** A write that did not get through: part of a header, or a good header with part of its payload. */
  predicate TornTail(f: Format, s: Bytes) {
    s != [] && (|s| < 18 || (Framed(f, s) && |s| < 18 + Announced(s)))
  }

  /** A whole record whose payload is not the one its checksum was made for. */
  predicate Damaged(f: Format, s: Bytes) {
    Framed(f, s) && |s| >= 18 + Announced(s) && f.crc(s[18..18 + Announced(s)]) != BigEndian(s[14..18])
  }

  /** What the encoder accepts, below the width of the length field, and the bytes it makes of it. */
  lemma {:induction false} RecordLayout(f: Format, payload: Bytes)
    requires f.Valid() && |payload| < 0x1_0000_0000
    ensures EncodeRecord(f, payload).Ok? <==> |payload| <= f.maxPayload
    ensures EncodeRecord(f, payload).Err? ==> EncodeRecord(f, payload).error == RecordTooLarge
    ensures EncodeRecord(f, payload).Ok? ==>
              var r := EncodeRecord(f, payload).value;
              && Framed(f, r) && Announced(r) == |payload| && BigEndian(r[14..18]) == f.crc(payload)
              && r[18..] == payload
  {
    HeaderLayout(f, payload);
    hide Header, BigEndian;
    var h, r := Header(f, payload), Record(f, payload);
    assert r[..8] == h[..8] && r[10..14] == h[10..14] && r[14..18] == h[14..18];
  }

  lemma {:induction false} HeaderLayout(f: Format, payload: Bytes)
    requires f.Valid() && |payload| < 0x1_0000_0000
    ensures var h := Header(f, payload);
            && h[..8] == f.magic && h[8] == 1 && h[9] == 1
            && BigEndian(h[10..14]) == |payload| && BigEndian(h[14..18]) == f.crc(payload)
  {
    hide U32, BigEndian;
    U32IsBigEndian(|payload|);
    U32IsBigEndian(f.crc(payload));
    HeaderSlices(f.magic, U32(|payload|), U32(f.crc(payload)));
  }

  lemma {:induction false} HeaderSlices(magic: Bytes, a: Bytes, b: Bytes)
    requires |magic| == 8 && |a| == |b| == 4
    ensures var h := magic + [1, 1] + a + b;
            h[..8] == magic && h[8] == 1 && h[9] == 1 && h[10..14] == a && h[14..18] == b
  {
  }

  /** The log's magic is "BEACHWAL", the manifest's "BEACHMAN". */
  lemma {:induction false} Magics(crc: Checksum)
    ensures forall i :: 0 <= i < 8 ==> WalFormat(crc).magic[i] as char == "BEACHWAL"[i]
    ensures forall i :: 0 <= i < 8 ==> ManifestFormat(crc).magic[i] as char == "BEACHMAN"[i]
  {
    Spells(WAL_MAGIC, "BEACHWAL");
    Spells(MANIFEST_MAGIC, "BEACHMAN");
  }

  lemma {:induction false} Spells(b: Bytes, s: string)
    requires |b| == |s| == 8 && b[0] as char == s[0] && b[1] as char == s[1] && b[2] as char == s[2]
    requires b[3] as char == s[3] && b[4] as char == s[4] && b[5] as char == s[5] && b[6] as char == s[6]
    requires b[7] as char == s[7]
    ensures forall i :: 0 <= i < 8 ==> b[i] as char == s[i]
  {
  }

  lemma {:induction false} HeaderReads(f: Format, s: Bytes)
    requires f.Valid() && |s| >= 18
    ensures var h := DecodeHeader(f, s[..18]);
            && (h.Ok? <==> Framed(f, s)) && (h.Ok? ==> h.value == (Announced(s), BigEndian(s[14..18])))
            && (h == Err(BadMagic) <==> s[..8] != f.magic)
            && (h == Err(UnsupportedVersion) <==> s[..8] == f.magic && s[8] != 1)
            && (h == Err(UnsupportedRecordType) <==> s[..8] == f.magic && s[8] == 1 && s[9] != 1)
  {
    var h := s[..18];
    FourDigits(h[10..14]);
    FourDigits(h[14..18]);
    assert h[10..14] == s[10..14] && h[14..18] == s[14..18] && h[..8] == s[..8];
  }

  /** Exactly when reading stops, and whether it stops at a write that did not get through or at damage. */
  lemma {:induction false} StopsIff(f: Format, s: Bytes)
    requires f.Valid()
    ensures var n := NextRecord(f, s);
            && (n == Eof <==> s == []) && (n == Torn <==> TornTail(f, s)) && (n == Bad(BadChecksum) <==> Damaged(f, s))
            && (n == Bad(BadMagic) <==> |s| >= 18 && s[..8] != f.magic)
            && (n == Bad(UnsupportedVersion) <==> |s| >= 18 && s[..8] == f.magic && s[8] != 1)
            && (n == Bad(UnsupportedRecordType) <==> |s| >= 18 && s[..8] == f.magic && s[8] == 1 && s[9] != 1)
            && (n == Bad(RecordTooLarge) <==>
                  |s| >= 18 && s[..8] == f.magic && s[8] == 1 && s[9] == 1 && Announced(s) > f.maxPayload)
  {
    if |s| >= 18 {
      HeaderReads(f, s);
      HeaderErrors(f, s[..18]);
      hide DecodeHeader, BigEndian;
      if |s| >= 18 + Announced(s) {
        assert s[18..][..Announced(s)] == s[18..18 + Announced(s)];
      }
    }
  }

  lemma {:induction false} HeaderErrors(f: Format, h: Bytes)
    requires f.Valid() && |h| == 18
    ensures DecodeHeader(f, h).Ok?
         || DecodeHeader(f, h).error in [BadMagic, UnsupportedVersion, UnsupportedRecordType, RecordTooLarge]
  {
    hide GetU32;
  }

  /** A header is exactly 18 bytes. */
  lemma {:induction false} HeaderLength(f: Format, h: Bytes)
    requires f.Valid()
    ensures DecodeHeader(f, h) == Err(Truncated) <==> |h| < 18
    ensures DecodeHeader(f, h) == Err(BadHeader) <==> |h| > 18
  {
    hide GetU32;
  }

  /** Where reading stops, and why, is decided by what follows the valid prefix. */
  lemma {:induction false} TailDecides(f: Format, s: Bytes)
    requires f.Valid()
    ensures ReadLog(f, s).end == NextRecord(f, s[ReadLog(f, s).valid..])
    decreases |s|
  {
    hide NextRecord;
    var r := NextRecord(f, s);
    if r.Rec? {
      hide ReadLog;
      ReadRecord(f, s);
      TailDecides(f, r.rest);
      NextCanonical(f, s);
      SkipBoth(Record(f, r.payload), r.rest, ReadLog(f, r.rest).valid);
    } else {
      assert s[0..] == s;
    }
  }

  lemma {:induction false} SkipBoth(a: Bytes, b: Bytes, n: nat)
    requires n <= |b|
    ensures (a + b)[|a| + n..] == b[n..]
  {
  }

  /**
   * Damage is not a torn tail: a record with other bytes in the place of its payload, of another checksum, ends the
   * reading with an error, whatever whole records come before it and whatever follows.
   */
  lemma {:induction false} DamagedRecordIsError(f: Format, before: seq<Bytes>, payload: Bytes, other: Bytes,
                                                rest: Bytes)
    requires f.Valid() && AllAllowed(f, before) && Allowed(f, payload)
    requires |other| == |payload| && f.crc(other) != f.crc(payload)
    ensures ReadLog(f, EncodeAll(f, before) + (Header(f, payload) + other + rest))
         == Scan(before, |EncodeAll(f, before)|, Bad(BadChecksum))
  {
    var h := Header(f, payload);
    HeaderDecodes(f, payload);
    hide DecodeHeader, Header, EncodeAll;
    Assoc(h, other, rest);
    Front(h, other + rest);
    Front(other, rest);
    ReadLogAfter(f, before, h + other + rest);
    assert before + [] == before;
  }

  /** A payload of 2^32 zero bytes: its length is written as zero, so it is let through and never read back. */
  lemma {:induction false} OversizedRecordIsLost(f: Format, rest: Bytes)
    requires f.Valid()
    ensures var payload := seq(0x1_0000_0000, _ => 0);
            EncodeRecord(f, payload).Ok? && NextRecord(f, EncodeRecord(f, payload).value + rest) != Rec(payload, rest)
  {
    hide NextRecord, Record;
    var payload: Bytes := seq(0x1_0000_0000, _ => 0);
    RecordRoundTrip(f, payload, rest);
  }

  lemma {:induction false} EncodeAllConcat(f: Format, a: seq<Bytes>, b: seq<Bytes>)
    requires f.Valid()
    ensures EncodeAll(f, a + b) == EncodeAll(f, a) + EncodeAll(f, b)
  {
    if a == [] {
      assert a + b == b;
    } else {
      assert (a + b)[1..] == a[1..] + b;
      EncodeAllConcat(f, a[1..], b);
      Assoc(Record(f, a[0]), EncodeAll(f, a[1..]), EncodeAll(f, b));
    }
  }

  /** Reading past whole records reaches whatever comes after them. */
  lemma {:induction false} ReadLogAfter(f: Format, payloads: seq<Bytes>, tail: Bytes)
    requires f.Valid() && AllAllowed(f, payloads)
    ensures var t := ReadLog(f, tail);
            ReadLog(f, EncodeAll(f, payloads) + tail)
            == Scan(payloads + t.payloads, |EncodeAll(f, payloads)| + t.valid, t.end)
  {
    hide NextRecord, Record;
    var t := ReadLog(f, tail);
    if payloads == [] {
      assert EncodeAll(f, payloads) + tail == tail && payloads + t.payloads == t.payloads;
    } else {
      var rest := EncodeAll(f, payloads[1..]) + tail;
      Assoc(Record(f, payloads[0]), EncodeAll(f, payloads[1..]), tail);
      NextOfRecord(f, payloads[0], rest);
      ReadLogAfter(f, payloads[1..], tail);
      assert [payloads[0]] + (payloads[1..] + t.payloads) == payloads + t.payloads;
    }
  }

  /** How many records lie wholly inside the first n bytes. */
  function Whole(f: Format, payloads: seq<Bytes>, n: nat): (k: nat)
    requires f.Valid()
    ensures k <= |payloads|
  {
    if payloads == [] || n < |Record(f, payloads[0])| then 0
    else 1 + Whole(f, payloads[1..], n - |Record(f, payloads[0])|)
  }

  /** Whole is the largest number of records that fit. */
  lemma {:induction false} WholeIsLargest(f: Format, payloads: seq<Bytes>, n: nat, j: nat)
    requires f.Valid() && j <= |payloads|
    ensures |EncodeAll(f, payloads[..j])| <= n <==> j <= Whole(f, payloads, n)
  {
    if j > 0 {
      assert payloads[..j][1..] == payloads[1..][..j - 1];
      if n >= |Record(f, payloads[0])| {
        WholeIsLargest(f, payloads[1..], n - |Record(f, payloads[0])|, j - 1);
      }
    }
  }

  /**
   * Torn logs: after a crash that kept any prefix of the bytes, reading returns exactly the records
   * that lie wholly inside it, stops at the end of the file on a record boundary and at a torn record
   * elsewhere, and reports the last boundary as the valid offset.
   */
  lemma {:induction false} TornLog(f: Format, payloads: seq<Bytes>, n: nat)
    requires f.Valid() && AllAllowed(f, payloads) && n <= |EncodeAll(f, payloads)|
    ensures var kept := payloads[..Whole(f, payloads, n)];
            ReadLog(f, EncodeAll(f, payloads)[..n])
            == Scan(kept, |EncodeAll(f, kept)|, if n == |EncodeAll(f, kept)| then Eof else Torn)
  {
    hide NextRecord, Record;
    if payloads == [] {
      assert NextRecord(f, []) == Eof by { EmptyLogEnds(f); }
    } else {
      var r, more := Record(f, payloads[0]), EncodeAll(f, payloads[1..]);
      if n < |r| {
        assert (r + more)[..n] == r[..n];
        NextOfCutRecord(f, payloads[0], n);
      } else {
        var m := n - |r|;
        var k := Whole(f, payloads[1..], m);
        CutBehind(r, more, m);
        NextOfRecord(f, payloads[0], more[..m]);
        TornLog(f, payloads[1..], m);
        hide EncodeAll;
        EncodeCons(f, payloads[0], payloads[1..][..k]);
        assert payloads[..k + 1] == [payloads[0]] + payloads[1..][..k];
      }
    }
  }

  lemma {:induction false} EncodeCons(f: Format, payload: Bytes, more: seq<Bytes>)
    requires f.Valid()
    ensures EncodeAll(f, [payload] + more) == Record(f, payload) + EncodeAll(f, more)
    ensures AllAllowed(f, [payload] + more) <==> Allowed(f, payload) && AllAllowed(f, more)
  {
    hide Record;
    assert ([payload] + more)[1..] == more;
  }

  lemma {:induction false} CutBehind(a: Bytes, b: Bytes, n: nat)
    requires n <= |b|
    ensures (a + b)[..|a| + n] == a + b[..n]
  {
  }

  lemma {:induction false} EmptyLogEnds(f: Format)
    requires f.Valid()
    ensures NextRecord(f, []) == Eof
  {
  }

  lemma {:induction false} ReadRecord(f: Format, s: Bytes)
    requires f.Valid() && NextRecord(f, s).Rec?
    ensures var r := NextRecord(f, s);
            |r.rest| < |s| &&
            var more := ReadLog(f, r.rest);
            ReadLog(f, s) == Scan([r.payload] + more.payloads, HEADER_SIZE + |r.payload| + more.valid, more.end)
  {
    NextCanonical(f, s);
    hide NextRecord, Record;
  }

  lemma {:induction false} RestAfter(f: Format, data: Bytes, pos: nat)
    requires f.Valid() && pos <= |data| && NextRecord(f, data[pos..]).Rec?
    ensures var r := NextRecord(f, data[pos..]);
            var next := pos + HEADER_SIZE + |r.payload|;
            next <= |data| && data[next..] == r.rest
  {
    var r := NextRecord(f, data[pos..]);
    NextCanonical(f, data[pos..]);
    hide NextRecord, Record;
    assert r.rest == data[pos..][HEADER_SIZE + |r.payload|..];
  }

  /** In any file at all, the bytes up to the valid offset are exactly the records that were read. */
  lemma {:induction false} ValidPrefixIsRecords(f: Format, s: Bytes)
    requires f.Valid()
    ensures var r := ReadLog(f, s);
            s[..r.valid] == EncodeAll(f, r.payloads) && AllAllowed(f, r.payloads)
    decreases |s|
  {
    hide Record, NextRecord;
    var r := NextRecord(f, s);
    if r.Rec? {
      hide ReadLog, EncodeAll, AllAllowed;
      NextCanonical(f, s);
      ReadRecord(f, s);
      var more := ReadLog(f, r.rest);
      ValidPrefixIsRecords(f, r.rest);
      EncodeCons(f, r.payload, more.payloads);
      CutBehind(Record(f, r.payload), r.rest, more.valid);
    }
  }

  /** Repair: truncating any file to its valid offset and appending records replays as the old ones then the new. */
  lemma {:induction false} RepairThenAppend(f: Format, s: Bytes, more: seq<Bytes>)
    requires f.Valid() && AllAllowed(f, more)
    ensures var r := ReadLog(f, s);
            var fixed := s[..r.valid] + EncodeAll(f, more);
            ReadLog(f, fixed) == Scan(r.payloads + more, |fixed|, Eof)
  {
    hide NextRecord, Record;
    var r := ReadLog(f, s);
    ValidPrefixIsRecords(f, s);
    EmptyLogEnds(f);
    ReadLogAfter(f, more, []);
    assert EncodeAll(f, more) + [] == EncodeAll(f, more) && more + [] == more;
    ReadLogAfter(f, r.payloads, EncodeAll(f, more));
  }

  /** Format.Encode: one buffer, header fields by offset, then the payload. */
  method Encode(f: Format, payload: Bytes) returns (res: Result<Bytes, RecordError>)
    requires f.Valid()
    ensures res == EncodeRecord(f, payload)
  {
    hide U32;
    if ToUint32(|payload|) > f.maxPayload {
      return Err(RecordTooLarge);
    }
    var buffer := new byte[HEADER_SIZE + |payload|];
    PutBytes(buffer, 0, f.magic);
    buffer[8], buffer[9] := RECORD_VERSION, TYPE_FULL;
    assert buffer[..10] == f.magic + [RECORD_VERSION, TYPE_FULL];
    PutUint32(buffer, 10, ToUint32(|payload|));
    PutUint32(buffer, 14, f.crc(payload));
    PutBytes(buffer, HEADER_SIZE, payload);
    assert buffer[..] == buffer[..HEADER_SIZE + |payload|];
    res := Ok(buffer[..]);
  }
}
