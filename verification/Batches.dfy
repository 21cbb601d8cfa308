/** Write batches and their encoding, the payload of every log record. */
module Batches {
  import opened Basics
  import opened Coding

  datatype OpType = OpPut | OpDelete

  datatype Operation = Operation(opType: OpType, key: Bytes, value: Bytes)

  datatype BatchError = CorruptBatch | BadVersion | UnknownOpType | TruncatedBatch

  const ENCODING_VERSION: byte := 1
  const BATCH_HEADER_SIZE := 8

  function OpByte(t: OpType): byte {
    if t == OpPut then 1 else 2
  }

  /** [op_type][key_len:4][key] and, for a put, [value_len:4][value]; lengths are cut to 32 bits. */
  function EncodeOp(op: Operation): (s: Bytes)
    ensures |s| == 5 + |op.key| + if op.opType == OpPut then 4 + |op.value| else 0
  {
    [OpByte(op.opType)] + (Field(op.key) + if op.opType == OpPut then Field(op.value) else [])
  }

  function EncodeOps(ops: seq<Operation>): Bytes {
    if ops == [] then [] else EncodeOp(ops[0]) + EncodeOps(ops[1..])
  }

  function Header(count: uint32): (s: Bytes)
    ensures |s| == BATCH_HEADER_SIZE
  {
    [ENCODING_VERSION, 0, 0, 0] + U32(count)
  }

  /** The source panics on more operations than a uint32 can count. */
  function EncodeBatch(ops: seq<Operation>): Bytes
    requires |ops| < 0x1_0000_0000
  {
    Header(|ops|) + EncodeOps(ops)
  }

  /** One operation off the front, and the bytes after it. */
  function DecodeOp(s: Bytes): (r: Result<(Operation, Bytes), BatchError>)
    ensures r.Ok? ==> |r.value.1| < |s|
  {
    if s == [] then Err(CorruptBatch)
    else if s[0] != 1 && s[0] != 2 then Err(UnknownOpType)
    else match TakeField(s[1..])
      case None => Err(TruncatedBatch)
      case Some((key, rest)) =>
        if s[0] == 2 then Ok((Operation(OpDelete, key, []), rest))
        else match TakeField(rest)
          case None => Err(TruncatedBatch)
          case Some((value, rest')) => Ok((Operation(OpPut, key, value), rest'))
  }

  function Prepend(ops: seq<Operation>, r: Result<(seq<Operation>, Bytes), BatchError>)
    : Result<(seq<Operation>, Bytes), BatchError>
  {
    if r.Err? then r else Ok((ops + r.value.0, r.value.1))
  }

  function DecodeOps(count: nat, s: Bytes): Result<(seq<Operation>, Bytes), BatchError> {
    if count == 0 then Ok(([], s))
    else match DecodeOp(s)
      case Err(e) => Err(e)
      case Ok((op, rest)) => Prepend([op], DecodeOps(count - 1, rest))
  }

  lemma {:induction false} PrependPrepend(a: seq<Operation>, b: seq<Operation>,
                                          r: Result<(seq<Operation>, Bytes), BatchError>)
    ensures Prepend(a, Prepend(b, r)) == Prepend(a + b, r)
    ensures Prepend([], r) == r
    ensures r.Ok? && r.value.0 == [] ==> Prepend(a, r) == Ok((a, r.value.1))
  {
    if r.Ok? {
      assert a + (b + r.value.0) == a + b + r.value.0;
      assert [] + r.value.0 == r.value.0 && a + [] == a;
    }
  }

  function DecodeBatch(s: Bytes): Result<seq<Operation>, BatchError> {
    if |s| < 1 then Err(CorruptBatch)
    else if s[0] != ENCODING_VERSION then Err(BadVersion)
    else if |s| < 4 || s[1] != 0 || s[2] != 0 || s[3] != 0 then Err(CorruptBatch)
    else if |s| < 8 then Err(CorruptBatch)
    else match DecodeOps(GetU32(s[4..]), s[8..])
      case Err(e) => Err(e)
      case Ok((ops, rest)) => if rest != [] then Err(CorruptBatch) else Ok(ops)
  }

  /** A delete carries no value on disk. */
  function Normal(op: Operation): Operation {
    if op.opType == OpDelete then op.(value := []) else op
  }

  function NormalAll(ops: seq<Operation>): (r: seq<Operation>)
    ensures |r| == |ops| && forall i :: 0 <= i < |ops| ==> r[i] == Normal(ops[i])
  {
    if ops == [] then [] else [Normal(ops[0])] + NormalAll(ops[1..])
  }

  /** The lengths that are written fit the 32 bits they are written in. */
  predicate Fits(op: Operation) {
    |op.key| < 0x1_0000_0000 && (op.opType == OpPut ==> |op.value| < 0x1_0000_0000)
  }

  predicate AllFit(ops: seq<Operation>) {
    ops == [] || (Fits(ops[0]) && AllFit(ops[1..]))
  }

  lemma {:induction false} DecodeOpOfEncoded(op: Operation, rest: Bytes)
    requires Fits(op)
    ensures DecodeOp(EncodeOp(op) + rest) == Ok((Normal(op), rest))
  {
    var s := EncodeOp(op) + rest;
    var tail := (if op.opType == OpPut then Field(op.value) else []) + rest;
    assert s[1..] == Field(op.key) + tail;
    TakeFieldOf(op.key, tail);
    if op.opType == OpPut {
      TakeFieldOf(op.value, rest);
    }
  }

  lemma {:induction false} DecodeOpsOfEncoded(ops: seq<Operation>, rest: Bytes)
    requires AllFit(ops)
    ensures DecodeOps(|ops|, EncodeOps(ops) + rest) == Ok((NormalAll(ops), rest))
  {
    if ops == [] {
      assert EncodeOps(ops) + rest == rest;
    } else {
      var more := EncodeOps(ops[1..]) + rest;
      assert EncodeOps(ops) + rest == EncodeOp(ops[0]) + more;
      DecodeOpOfEncoded(ops[0], more);
      DecodeOpsOfEncoded(ops[1..], rest);
    }
  }

  /** What one decode consumes is the encoding of what it returns. */
  lemma {:induction false} DecodeOpCanonical(s: Bytes)
    requires DecodeOp(s).Ok?
    ensures var (op, rest) := DecodeOp(s).value;
            s == EncodeOp(op) + rest && Fits(op) && Normal(op) == op
  {
    hide TakeU32, U32, TakeBytes;
    var (op, rest) := DecodeOp(s).value;
    var fields := Field(op.key) + if op.opType == OpPut then Field(op.value) else [];
    assert s[1..] == fields + rest by {
      var tail := TakeField(s[1..]).value.1;
      TakeFieldCanonical(s[1..]);
      if op.opType == OpPut {
        TakeFieldCanonical(tail);
        Assoc(Field(op.key), Field(op.value), rest);
      }
    }
    assert s == [s[0]] + s[1..];
    Assoc([s[0]], fields, rest);
  }

  lemma {:induction false} DecodeOpsCanonical(count: nat, s: Bytes)
    requires DecodeOps(count, s).Ok?
    ensures var (ops, rest) := DecodeOps(count, s).value;
            |ops| == count && s == EncodeOps(ops) + rest && AllFit(ops) && NormalAll(ops) == ops
  {
    hide DecodeOp, EncodeOp;
    var (ops, rest) := DecodeOps(count, s).value;
    if count == 0 {
      assert s == [] + s;
    } else {
      DecodeOpCanonical(s);
      var (op, s') := DecodeOp(s).value;
      DecodeOpsCanonical(count - 1, s');
      assert ops == [op] + DecodeOps(count - 1, s').value.0;
      assert ops[1..] == DecodeOps(count - 1, s').value.0;
      Assoc(EncodeOp(op), EncodeOps(ops[1..]), rest);
    }
  }

  /** Whatever bytes the decoder accepts are exactly the encoding of what it returns. */
  lemma {:induction false} DecodeBatchCanonical(s: Bytes)
    requires DecodeBatch(s).Ok?
    ensures var ops := DecodeBatch(s).value;
            |ops| < 0x1_0000_0000 && EncodeBatch(ops) == s && AllFit(ops) && NormalAll(ops) == ops
  {
    hide U32, GetU32, DecodeOps, EncodeOps, NormalAll, AllFit;
    var count := GetU32(s[4..]);
    DecodeOpsCanonical(count, s[8..]);
    var (ops, rest) := DecodeOps(count, s[8..]).value;
    U32Canonical(s[4..]);
    assert s[4..][4..] == s[8..] == EncodeOps(ops);
    assert s == [1, 0, 0, 0] + s[4..];
    Assoc([1, 0, 0, 0], U32(count), EncodeOps(ops));
  }

  lemma {:induction false} NormalFits(ops: seq<Operation>)
    ensures AllFit(NormalAll(ops)) ==> AllFit(ops)
  {
    if ops != [] {
      assert NormalAll(ops)[1..] == NormalAll(ops[1..]);
      NormalFits(ops[1..]);
    }
  }

  /** Bytes behind an encoded batch make it corrupt. */
  lemma {:induction false} TrailingBytesRefused(ops: seq<Operation>, more: Bytes)
    requires |ops| < 0x1_0000_0000 && AllFit(ops) && more != []
    ensures DecodeBatch(EncodeBatch(ops) + more) == Err(CorruptBatch)
  {
    hide U32, GetU32, DecodeOps, EncodeOps, AllFit;
    HeaderThenOps(|ops|, EncodeOps(ops) + more);
    Assoc(Header(|ops|), EncodeOps(ops), more);
    DecodeOpsOfEncoded(ops, more);
  }

  /** A batch that is cut anywhere is refused. */
  lemma {:induction false} CutBatchRefused(ops: seq<Operation>, n: nat)
    requires |ops| < 0x1_0000_0000 && AllFit(ops) && n < |EncodeBatch(ops)|
    ensures DecodeBatch(EncodeBatch(ops)[..n]).Err?
  {
    hide EncodeBatch, DecodeBatch, AllFit;
    var s := EncodeBatch(ops);
    if DecodeBatch(s[..n]).Ok? {
      DecodeBatchCanonical(s[..n]);
      BatchRoundTrip(ops);
      assert s == s[..n] + s[n..];
      TrailingBytesRefused(DecodeBatch(s[..n]).value, s[n..]);
    }
  }

  /** The version byte is looked at first; a header that is short or has a reserved byte set is corrupt. */
  lemma {:induction false} HeaderErrors(s: Bytes)
    ensures DecodeBatch(s) == Err(BadVersion) <==> s != [] && s[0] != 1
    ensures s == [] || (s[0] == 1 && (|s| < 8 || s[1] != 0 || s[2] != 0 || s[3] != 0)) ==>
              DecodeBatch(s) == Err(CorruptBatch)
  {
    hide DecodeOps, GetU32;
    if |s| >= 8 {
      OpsErrors(GetU32(s[4..]), s[8..]);
    }
  }

  lemma {:induction false} OpsErrors(count: nat, s: Bytes)
    ensures DecodeOps(count, s) != Err(BadVersion)
  {
    hide TakeField;
    if count > 0 && DecodeOp(s).Ok? {
      OpsErrors(count - 1, DecodeOp(s).value.1);
    }
  }

  /** An operation that is neither a put nor a delete is named as such, whatever good operations come before it. */
  lemma {:induction false} UnknownOperation(ops: seq<Operation>, b: byte, rest: Bytes, count: nat)
    requires AllFit(ops) && |ops| < count < 0x1_0000_0000 && b != 1 && b != 2
    ensures DecodeBatch(Header(count) + (EncodeOps(ops) + ([b] + rest))) == Err(UnknownOpType)
  {
    hide U32, GetU32, EncodeOps, AllFit;
    HeaderThenOps(count, EncodeOps(ops) + ([b] + rest));
    OpsThenUnknown(ops, b, rest, count);
  }

  lemma {:induction false} FirstOperation(ops: seq<Operation>, rest: Bytes)
    requires ops != []
    ensures EncodeOps(ops) + rest == EncodeOp(ops[0]) + (EncodeOps(ops[1..]) + rest)
  {
    hide EncodeOp;
    Assoc(EncodeOp(ops[0]), EncodeOps(ops[1..]), rest);
  }

  lemma {:induction false} OneMore(count: nat, s: Bytes)
    requires count > 0 && DecodeOp(s).Ok?
    ensures var (op, rest) := DecodeOp(s).value;
            DecodeOps(count, s) == Prepend([op], DecodeOps(count - 1, rest))
  {
    hide DecodeOp;
  }

  lemma {:induction false} OpsThenUnknown(ops: seq<Operation>, b: byte, rest: Bytes, count: nat)
    requires AllFit(ops) && |ops| < count && b != 1 && b != 2
    ensures DecodeOps(count, EncodeOps(ops) + ([b] + rest)) == Err(UnknownOpType)
  {
    hide EncodeOp, EncodeOps, Normal, DecodeOp, DecodeOps, Fits;
    if ops == [] {
      UnknownFirst(b, rest, count);
    } else {
      var more := EncodeOps(ops[1..]) + ([b] + rest);
      FirstOperation(ops, [b] + rest);
      DecodeOpOfEncoded(ops[0], more);
      OneMore(count, EncodeOps(ops) + ([b] + rest));
      OpsThenUnknown(ops[1..], b, rest, count - 1);
    }
  }

  lemma {:induction false} UnknownFirst(b: byte, rest: Bytes, count: nat)
    requires 0 < count && b != 1 && b != 2
    ensures DecodeOps(count, EncodeOps([]) + ([b] + rest)) == Err(UnknownOpType)
  {
    assert EncodeOps([]) + ([b] + rest) == [b] + rest;
    assert DecodeOp([b] + rest) == Err(UnknownOpType);
  }

  /**
   * An operation that is cut behind its type byte is truncated; one that is missing altogether makes a batch corrupt.
   */
  lemma {:induction false} CutOperation(op: Operation, n: nat)
    requires Fits(op) && n < |EncodeOp(op)|
    ensures DecodeOp(EncodeOp(op)[..n]) == Err(if n == 0 then CorruptBatch else TruncatedBatch)
  {
    if n == 0 {
      return;
    }
    var s := EncodeOp(op)[..n];
    var fields := EncodeOp(op)[1..];
    var value := if op.opType == OpPut then Field(op.value) else [];
    assert s[1..] == fields[..n - 1] && fields == Field(op.key) + value && s[0] == OpByte(op.opType);
    if n - 1 < |Field(op.key)| {
      assert fields[..n - 1] == Field(op.key)[..n - 1];
      CutField(op.key, n - 1);
    } else {
      var m := n - 1 - |Field(op.key)|;
      assert fields[..n - 1] == Field(op.key) + value[..m];
      TakeFieldOf(op.key, value[..m]);
      CutField(op.value, m);
    }
  }

  lemma {:induction false} HeaderThenOps(count: uint32, rest: Bytes)
    ensures var s := Header(count) + rest;
            && |s| >= 8 && s[0] == 1 && s[1] == s[2] == s[3] == 0 && GetU32(s[4..]) == count && s[8..] == rest
  {
    hide U32, GetU32;
    assert (Header(count) + rest)[4..] == U32(count) + rest;
    U32RoundTrip(count, rest);
  }

  /** A batch comes back from its encoding, deletes without values, exactly when its lengths fit. */
  lemma {:induction false} BatchRoundTrip(ops: seq<Operation>)
    requires |ops| < 0x1_0000_0000
    ensures DecodeBatch(EncodeBatch(ops)) == Ok(NormalAll(ops)) <==> AllFit(ops)
  {
    hide DecodeBatch, EncodeBatch, NormalAll, AllFit;
    if AllFit(ops) {
      DecodeEncodedBatch(ops);
    }
    if DecodeBatch(EncodeBatch(ops)) == Ok(NormalAll(ops)) {
      DecodeBatchCanonical(EncodeBatch(ops));
      NormalFits(ops);
    }
  }

  lemma {:induction false} DecodeEncodedBatch(ops: seq<Operation>)
    requires |ops| < 0x1_0000_0000 && AllFit(ops)
    ensures DecodeBatch(EncodeBatch(ops)) == Ok(NormalAll(ops))
  {
    hide U32, GetU32, DecodeOps, EncodeOps, NormalAll, AllFit;
    var s := EncodeBatch(ops);
    assert s[4..] == U32(|ops|) + EncodeOps(ops);
    U32RoundTrip(|ops|, EncodeOps(ops));
    assert s[8..] == EncodeOps(ops) == EncodeOps(ops) + [];
    DecodeOpsOfEncoded(ops, []);
  }

  /** Two batches with one encoding are the same batch up to delete values. */
  lemma {:induction false} EncodeBatchInjective(a: seq<Operation>, b: seq<Operation>)
    requires |a| < 0x1_0000_0000 && |b| < 0x1_0000_0000 && AllFit(a) && AllFit(b)
    requires EncodeBatch(a) == EncodeBatch(b)
    ensures NormalAll(a) == NormalAll(b)
  {
    BatchRoundTrip(a);
    BatchRoundTrip(b);
  }

  /** encodeOperations: sizes one buffer and fills it by offset. */
  method EncodeOperations(ops: seq<Operation>) returns (buf: array<byte>)
    requires |ops| < 0x1_0000_0000
    ensures fresh(buf) && buf[..] == EncodeBatch(ops)
  {
    var size := EncodedSize(ops);
    buf := new byte[size];
    buf[0], buf[1], buf[2], buf[3] := ENCODING_VERSION, 0, 0, 0;
    PutUint32(buf, 4, |ops|);
    WriteOps(buf, ops);
  }

  /** The size pass counts exactly the bytes the write pass fills. */
  method EncodedSize(ops: seq<Operation>) returns (size: nat)
    requires |ops| < 0x1_0000_0000
    ensures size == |EncodeBatch(ops)|
  {
    size := BATCH_HEADER_SIZE;
    for i := 0 to |ops|
      invariant size + |EncodeOps(ops[i..])| == |EncodeBatch(ops)|
    {
      assert ops[i..][1..] == ops[i + 1..];
      size := size + 1 + 4 + |ops[i].key|;
      if ops[i].opType == OpPut {
        size := size + 4 + |ops[i].value|;
      }
    }
  }

  method WriteOps(buf: array<byte>, ops: seq<Operation>)
    requires buf.Length == BATCH_HEADER_SIZE + |EncodeOps(ops)|
    modifies buf
    ensures buf[..] == old(buf[..8]) + EncodeOps(ops)
  {
    hide EncodeOp;
    var offset := BATCH_HEADER_SIZE;
    ghost var all := buf[..8] + EncodeOps(ops);
    for i := 0 to |ops|
      invariant 8 <= offset <= buf.Length == |all| == offset + |EncodeOps(ops[i..])|
      invariant buf[..offset] + EncodeOps(ops[i..]) == all
    {
      assert ops[i..][1..] == ops[i + 1..];
      Assoc(buf[..offset], EncodeOp(ops[i]), EncodeOps(ops[i + 1..]));
      offset := WriteOp(buf, offset, ops[i]);
    }
    assert buf[..offset] == buf[..];
  }

  method WriteOp(buf: array<byte>, start: nat, op: Operation) returns (offset: nat)
    requires start + |EncodeOp(op)| <= buf.Length
    modifies buf
    ensures offset == start + |EncodeOp(op)|
    ensures buf[..offset] == old(buf[..start]) + EncodeOp(op)
  {
    hide U32, Field;
    ghost var before := buf[..start];
    offset := start;
    buf[offset] := OpByte(op.opType);
    offset := offset + 1;
    assert buf[..offset] == before + [OpByte(op.opType)];
    offset := WriteField(buf, offset, op.key);
    if op.opType == OpPut {
      offset := WriteField(buf, offset, op.value);
    }
  }

  method WriteField(buf: array<byte>, start: nat, b: Bytes) returns (offset: nat)
    requires start + |Field(b)| <= buf.Length
    modifies buf
    ensures offset == start + |Field(b)|
    ensures buf[..offset] == old(buf[..start]) + Field(b)
  {
    PutUint32(buf, start, ToUint32(|b|));
    PutBytes(buf, start + 4, b);
    offset := start + 4 + |b|;
  }

  method DecodeOperation(r: ByteReader) returns (res: Result<Operation, BatchError>)
    requires r.Valid()
    modifies r
    ensures r.Valid()
    ensures match DecodeOp(old(r.Rest()))
            case Ok((op, rest)) => res == Ok(op) && r.Rest() == rest
            case Err(e) => res == Err(e)
  {
    ghost var s := r.Rest();
    var t := r.ReadByte();
    if t.None? {
      return Err(CorruptBatch);
    }
    if t.value != 1 && t.value != 2 {
      return Err(UnknownOpType);
    }
    var keyLen := r.ReadUint32();
    if keyLen.None? {
      return Err(TruncatedBatch);
    }
    assert r.Rest() == s[5..];
    var key := r.ReadBytes(keyLen.value);
    if key.None? {
      return Err(TruncatedBatch);
    }
    if t.value == 2 {
      return Ok(Operation(OpDelete, key.value, []));
    }
    var valueLen := r.ReadUint32();
    if valueLen.None? {
      return Err(TruncatedBatch);
    }
    var value := r.ReadBytes(valueLen.value);
    if value.None? {
      return Err(TruncatedBatch);
    }
    res := Ok(Operation(OpPut, key.value, value.value));
  }

  /** DecodeBatch, reading through the cursor. */
  method Decode(data: Bytes) returns (res: Result<seq<Operation>, BatchError>)
    ensures res == DecodeBatch(data)
  {
    hide DecodeOps, U32, GetU32;
    var r := new ByteReader(data);
    var version := r.ReadByte();
    if version.None? {
      return Err(CorruptBatch);
    }
    if version.value != ENCODING_VERSION {
      return Err(BadVersion);
    }
    var reserved := r.ReadBytes(3);
    if reserved.None? {
      return Err(CorruptBatch);
    }
    HeaderSlices(data);
    for i := 0 to 3
      invariant forall k :: 0 <= k < i ==> reserved.value[k] == 0
      invariant r.Valid() && r.Rest() == data[4..]
    {
      if reserved.value[i] != 0 {
        return Err(CorruptBatch);
      }
    }
    var count := r.ReadUint32();
    if count.None? {
      return Err(CorruptBatch);
    }
    var ops := DecodeAll(r, count.value);
    if ops.Ok? && r.Remaining() != 0 {
      return Err(CorruptBatch);
    }
    res := ops;
  }

  /** Where the fields of the header are. */
  lemma {:induction false} HeaderSlices(data: Bytes)
    requires |data| >= 4
    ensures data[1..][3..] == data[4..] && (|data| >= 8 ==> data[4..][4..] == data[8..])
    ensures var reserved := data[1..][..3];
            reserved[0] == data[1] && reserved[1] == data[2] && reserved[2] == data[3]
  {
  }

  /** The loop over the declared number of operations. */
  method DecodeAll(r: ByteReader, count: uint32) returns (res: Result<seq<Operation>, BatchError>)
    requires r.Valid()
    modifies r
    ensures r.Valid()
    ensures match DecodeOps(count, old(r.Rest()))
            case Ok((ops, rest)) => res == Ok(ops) && r.Rest() == rest
            case Err(e) => res == Err(e)
  {
    var ops := [];
    hide DecodeOp;
    PrependPrepend([], [], DecodeOps(count, r.Rest()));
    for i := 0 to count
      invariant r.Valid()
      invariant DecodeOps(count, old(r.Rest())) == Prepend(ops, DecodeOps(count - i, r.Rest()))
    {
      var op := DecodeOperation(r);
      if op.Err? {
        return Err(op.error);
      }
      PrependPrepend(ops, [op.value], DecodeOps(count - i - 1, r.Rest()));
      ops := ops + [op.value];
    }
    PrependPrepend(ops, [], DecodeOps(0, r.Rest()));
    res := Ok(ops);
  }
}
