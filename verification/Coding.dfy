/** Big-endian integers and the bounds-checked cursor that every decoder reads through. */
module Coding {
  import opened Basics

  /** The four bytes that PutUint32 stores, most significant first. */
  function U32(v: uint32): (s: Bytes)
    ensures |s| == 4
  {
    [v / 0x100_0000, v / 0x1_0000 % 0x100, v / 0x100 % 0x100, v % 0x100]
  }

  /** The value Uint32 reads from the first four bytes. */
  function GetU32(s: Bytes): uint32
    requires |s| >= 4
  {
    s[0] as int * 0x100_0000 + s[1] as int * 0x1_0000 + s[2] as int * 0x100 + s[3]
  }

  function U64(v: uint64): (s: Bytes)
    ensures |s| == 8
  {
    U32(v / 0x1_0000_0000) + U32(v % 0x1_0000_0000)
  }

  function GetU64(s: Bytes): uint64
    requires |s| >= 8
  {
    GetU32(s) * 0x1_0000_0000 + GetU32(s[4..])
  }

  /** Reading back a stored uint32 gives it, whatever follows it in the buffer. */
  lemma {:induction false} U32RoundTrip(v: uint32, rest: Bytes)
    ensures GetU32(U32(v) + rest) == v
    ensures (U32(v) + rest)[4..] == rest
  {
    var s := U32(v) + rest;
    var high := v / 0x1_0000;
    assert v / 0x100_0000 == high / 0x100;
    assert s[0] as int * 0x100 + s[1] as int == high;
    assert v / 0x100 == high * 0x100 + s[2] as int;
    assert v == v / 0x100 * 0x100 + s[3] as int;
  }

  lemma {:induction false} LastDigitOff(n: nat, d: byte)
    ensures (n * 0x100 + d) / 0x100 == n && (n * 0x100 + d) % 0x100 == d
  {
  }

  /** Every four bytes are the encoding of the value read from them. */
  lemma {:induction false} U32Canonical(s: Bytes)
    requires |s| >= 4
    ensures s == U32(GetU32(s)) + s[4..]
  {
    var v := GetU32(s);
    var two: nat := s[0] as nat * 0x100 + s[1] as nat;
    var three: nat := two * 0x100 + s[2] as nat;
    LastDigitOff(s[0], s[1]);
    LastDigitOff(two, s[2]);
    LastDigitOff(three, s[3]);
    assert v == three * 0x100 + s[3] as nat;
    assert v / 0x1_0000 == v / 0x100 / 0x100 && v / 0x100_0000 == v / 0x100 / 0x100 / 0x100;
    assert U32(v) == [s[0], s[1], s[2], s[3]];
  }

  lemma {:induction false} U64RoundTrip(v: uint64, rest: Bytes)
    ensures GetU64(U64(v) + rest) == v
    ensures (U64(v) + rest)[8..] == rest
  {
    var s := U64(v) + rest;
    var low := U32(v % 0x1_0000_0000) + rest;
    assert s == U32(v / 0x1_0000_0000) + low;
    U32RoundTrip(v / 0x1_0000_0000, low);
    U32RoundTrip(v % 0x1_0000_0000, rest);
  }

  lemma {:induction false} U64Canonical(s: Bytes)
    requires |s| >= 8
    ensures s == U64(GetU64(s)) + s[8..]
  {
    U32Canonical(s);
    U32Canonical(s[4..]);
    assert GetU64(s) / 0x1_0000_0000 == GetU32(s);
    assert s[4..][4..] == s[8..];
  }

  /** The number that bytes spell in base 256, most significant digit first. */
  function BigEndian(s: Bytes): nat {
    if s == [] then 0 else BigEndian(s[..|s| - 1]) * 0x100 + s[|s| - 1] as nat
  }

  lemma {:induction false} BigEndianSnoc(s: Bytes, b: byte)
    ensures BigEndian(s + [b]) == BigEndian(s) * 0x100 + b as nat
  {
    assert (s + [b])[..|s|] == s;
  }

  /** A stored 32-bit integer is four bytes that spell it. */
  lemma {:induction false} U32IsBigEndian(v: uint32)
    ensures BigEndian(U32(v)) == v
  {
    var s := U32(v);
    FourDigits(s);
    U32RoundTrip(v, []);
    assert s + [] == s;
  }

  lemma {:induction false} FourDigits(s: Bytes)
    requires |s| == 4
    ensures BigEndian(s) == GetU32(s)
  {
    assert BigEndian(s[..0]) == 0 by { assert s[..0] == []; }
    NextDigit(s, 0);
    NextDigit(s, 1);
    NextDigit(s, 2);
    NextDigit(s, 3);
    assert s[..4] == s;
    hide BigEndian;
  }

  lemma {:induction false} NextDigit(s: Bytes, i: nat)
    requires i < |s|
    ensures BigEndian(s[..i + 1]) == BigEndian(s[..i]) * 0x100 + s[i] as nat
  {
    BigEndianSnoc(s[..i], s[i]);
    assert s[..i + 1] == s[..i] + [s[i]];
  }

  /** More digits behind: four more are a shift by 2^32. */
  lemma {:induction false} FourMore(s: Bytes, t: Bytes)
    requires |t| == 4
    ensures BigEndian(s + t) == BigEndian(s) * 0x1_0000_0000 + BigEndian(t)
  {
    hide BigEndian;
    FourDigits(t);
    var st := s + t;
    NextDigit(st, |s|);
    NextDigit(st, |s| + 1);
    NextDigit(st, |s| + 2);
    NextDigit(st, |s| + 3);
    assert st[..|s|] == s && st[..|s| + 4] == st;
  }

  /** A stored 64-bit integer is eight bytes that spell it. */
  lemma {:induction false} U64IsBigEndian(v: uint64)
    ensures BigEndian(U64(v)) == v
  {
    hide U32;
    FourMore(U32(v / 0x1_0000_0000), U32(v % 0x1_0000_0000));
    U32IsBigEndian(v / 0x1_0000_0000);
    U32IsBigEndian(v % 0x1_0000_0000);
  }

  // ----- Reading off the front: the value and the bytes after it, or None on a short read.

  function TakeByte(s: Bytes): Option<(byte, Bytes)> {
    if |s| < 1 then None else Some((s[0], s[1..]))
  }

  function TakeU32(s: Bytes): Option<(uint32, Bytes)> {
    if |s| < 4 then None else Some((GetU32(s), s[4..]))
  }

  function TakeU64(s: Bytes): Option<(uint64, Bytes)> {
    if |s| < 8 then None else Some((GetU64(s), s[8..]))
  }

  function TakeBytes(s: Bytes, n: nat): Option<(Bytes, Bytes)> {
    if |s| < n then None else Some((s[..n], s[n..]))
  }

  /** A length-prefixed field; the length is cut to 32 bits. */
  function Field(b: Bytes): (s: Bytes)
    ensures |s| == 4 + |b|
  {
    U32(ToUint32(|b|)) + b
  }

  function TakeField(s: Bytes): (r: Option<(Bytes, Bytes)>)
    ensures r.Some? ==> |r.value.0| < 0x1_0000_0000 && |r.value.1| < |s|
  {
    var n := TakeU32(s);
    if n.None? then None else TakeBytes(n.value.1, n.value.0)
  }

  lemma {:induction false} TakeU32Of(v: uint32, rest: Bytes)
    ensures TakeU32(U32(v) + rest) == Some((v, rest))
  {
    U32RoundTrip(v, rest);
  }

  lemma {:induction false} TakeU64Of(v: uint64, rest: Bytes)
    ensures TakeU64(U64(v) + rest) == Some((v, rest))
  {
    U64RoundTrip(v, rest);
  }

  lemma {:induction false} TakeBytesOf(b: Bytes, rest: Bytes)
    ensures TakeBytes(b + rest, |b|) == Some((b, rest))
  {
  }

  /** A field whose length fits 32 bits comes back, whatever follows it. */
  lemma {:induction false} TakeFieldOf(b: Bytes, rest: Bytes)
    requires |b| < 0x1_0000_0000
    ensures TakeField(Field(b) + rest) == Some((b, rest))
  {
    assert Field(b) + rest == U32(|b|) + (b + rest);
    TakeU32Of(|b|, b + rest);
    TakeBytesOf(b, rest);
  }

  lemma {:induction false} FieldPrefix(b: Bytes, n: nat)
    requires |b| < 0x1_0000_0000 && 4 <= n < |Field(b)|
    ensures Field(b)[..n] == U32(|b|) + b[..n - 4]
  {
    hide U32;
  }

  /** A field that is cut anywhere is refused. */
  lemma {:induction false} CutField(b: Bytes, n: nat)
    requires |b| < 0x1_0000_0000 && n < |Field(b)|
    ensures TakeField(Field(b)[..n]) == None
  {
    hide U32, GetU32;
    if n >= 4 {
      FieldPrefix(b, n);
      TakeU32Of(|b|, b[..n - 4]);
    }
  }

  /** What TakeField consumes is the encoding of the field it returns. */
  lemma {:induction false} TakeFieldCanonical(s: Bytes)
    requires TakeField(s).Some?
    ensures s == Field(TakeField(s).value.0) + TakeField(s).value.1
  {
    hide U32, GetU32;
    U32Canonical(s);
    var (b, rest) := TakeField(s).value;
    assert s[4..] == b + rest;
    assert s == U32(|b|) + (b + rest) == Field(b) + rest;
  }

  /** PutUint32 into a buffer at an offset. */
  method PutUint32(buf: array<byte>, off: nat, v: uint32)
    requires off + 4 <= buf.Length
    modifies buf
    ensures buf[..off + 4] == old(buf[..off]) + U32(v) && buf[off + 4..] == old(buf[off + 4..])
  {
    buf[off], buf[off + 1] := v / 0x100_0000, v / 0x1_0000 % 0x100;
    buf[off + 2], buf[off + 3] := v / 0x100 % 0x100, v % 0x100;
  }

  /** PutUint64 into a buffer at an offset. */
  method PutUint64(buf: array<byte>, off: nat, v: uint64)
    requires off + 8 <= buf.Length
    modifies buf
    ensures buf[..off + 8] == old(buf[..off]) + U64(v) && buf[off + 8..] == old(buf[off + 8..])
  {
    PutUint32(buf, off, v / 0x1_0000_0000);
    PutUint32(buf, off + 4, v % 0x1_0000_0000);
    assert buf[off + 8..] == old(buf[off + 4..])[4..];
  }

  /** Go's copy of s into the buffer at an offset. */
  method PutBytes(buf: array<byte>, off: nat, s: Bytes)
    requires off + |s| <= buf.Length
    modifies buf
    ensures buf[..off + |s|] == old(buf[..off]) + s && buf[off + |s|..] == old(buf[off + |s|..])
  {
    for i := 0 to |s|
      invariant forall j :: 0 <= j < i ==> buf[off + j] == s[j]
      invariant forall j :: 0 <= j < off || off + i <= j < buf.Length ==> buf[j] == old(buf[j])
    {
      buf[off + i] := s[i];
    }
  }

  /** A cursor over bytes. A failed read leaves the position where it was. */
  class ByteReader {
    const data: Bytes
    var offset: nat

    ghost predicate Valid()
      reads this
    {
      offset <= |data|
    }

    /** What is still to be read. */
    ghost function Rest(): Bytes
      requires Valid()
      reads this
    {
      data[offset..]
    }

    constructor (data: Bytes)
      ensures Valid() && Rest() == data && this.data == data && offset == 0
    {
      this.data, this.offset := data, 0;
    }

    function Remaining(): (n: nat)
      requires Valid()
      reads this
      ensures n == |Rest()|
    {
      |data| - offset
    }

    method ReadByte() returns (r: Option<byte>)
      requires Valid()
      modifies this
      ensures Valid()
      ensures match TakeByte(old(Rest()))
              case Some((v, rest)) => r == Some(v) && Rest() == rest
              case None => r == None && Rest() == old(Rest())
    {
      if offset >= |data| {
        return None;
      }
      r := Some(data[offset]);
      offset := offset + 1;
    }

    method ReadUint32() returns (r: Option<uint32>)
      requires Valid()
      modifies this
      ensures Valid()
      ensures match TakeU32(old(Rest()))
              case Some((v, rest)) => r == Some(v) && Rest() == rest
              case None => r == None && Rest() == old(Rest())
    {
      if offset + 4 > |data| {
        return None;
      }
      r := Some(GetU32(data[offset..]));
      offset := offset + 4;
    }

    method ReadUint64() returns (r: Option<uint64>)
      requires Valid()
      modifies this
      ensures Valid()
      ensures match TakeU64(old(Rest()))
              case Some((v, rest)) => r == Some(v) && Rest() == rest
              case None => r == None && Rest() == old(Rest())
    {
      if offset + 8 > |data| {
        return None;
      }
      r := Some(GetU64(data[offset..]));
      offset := offset + 8;
    }

    method ReadBytes(n: nat) returns (r: Option<Bytes>)
      requires Valid()
      modifies this
      ensures Valid()
      ensures match TakeBytes(old(Rest()), n)
              case Some((v, rest)) => r == Some(v) && Rest() == rest
              case None => r == None && Rest() == old(Rest())
    {
      if offset + n > |data| {
        return None;
      }
      assert data[offset..offset + n] == data[offset..][..n];
      r := Some(data[offset..offset + n]);
      offset := offset + n;
    }
  }
}
