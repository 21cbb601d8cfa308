/** Internal keys, the order everything in the engine is sorted by, and their encoding. */
module Keys {
  import opened Basics
  import opened Coding

  const KIND_PUT: byte := 1
  const KIND_DELETE: byte := 2

  /** A user key, the sequence number of the write and the kind of the write. */
  datatype InternalKey = InternalKey(userKey: Bytes, seqno: uint64, kind: byte)

  predicate ValidKind(kind: byte) {
    kind == KIND_PUT || kind == KIND_DELETE
  }

  /** Lexicographic byte order, as bytes.Compare gives it. */
  function CompareBytes(a: Bytes, b: Bytes): int {
    if a == [] && b == [] then 0
    else if a == [] then -1
    else if b == [] then 1
    else if a[0] < b[0] then -1
    else if a[0] > b[0] then 1
    else CompareBytes(a[1..], b[1..])
  }

  /** User key ascending, then sequence number descending. The kind takes no part. */
  function Compare(a: InternalKey, b: InternalKey): int {
    var c := CompareBytes(a.userKey, b.userKey);
    if c != 0 then c
    else if a.seqno > b.seqno then -1
    else if a.seqno < b.seqno then 1
    else 0
  }

  lemma {:induction false} CompareBytesAntisymmetric(a: Bytes, b: Bytes)
    ensures CompareBytes(a, b) == -CompareBytes(b, a)
    ensures CompareBytes(a, b) == 0 <==> a == b
  {
    if a != [] && b != [] && a[0] == b[0] {
      CompareBytesAntisymmetric(a[1..], b[1..]);
      assert a == [a[0]] + a[1..] && b == [b[0]] + b[1..];
    }
  }

  lemma {:induction false} CompareBytesTransitive(a: Bytes, b: Bytes, c: Bytes)
    requires CompareBytes(a, b) <= 0 && CompareBytes(b, c) <= 0
    ensures CompareBytes(a, c) <= 0
    ensures CompareBytes(a, b) < 0 || CompareBytes(b, c) < 0 ==> CompareBytes(a, c) < 0
  {
    if a != [] && b != [] && c != [] && a[0] == b[0] == c[0] {
      CompareBytesTransitive(a[1..], b[1..], c[1..]);
    }
  }

  /** Dictionary order: at the first difference a has the smaller byte, or a ends there and b goes on. */
  ghost predicate Before(a: Bytes, b: Bytes) {
    exists n: nat :: DiffersAt(a, b, n)
  }

  predicate DiffersAt(a: Bytes, b: Bytes, n: nat) {
    && n <= |a| && n <= |b| && a[..n] == b[..n]
    && ((n == |a| && n < |b|) || (n < |a| && n < |b| && a[n] < b[n]))
  }

  /** A common first byte moves the first difference by one. */
  lemma {:induction false} BeforeTails(a: Bytes, b: Bytes)
    requires a != [] && b != [] && a[0] == b[0]
    ensures Before(a, b) <==> Before(a[1..], b[1..])
  {
    if Before(a, b) {
      var n: nat :| DiffersAt(a, b, n);
      assert a[1..][..n - 1] == a[..n][1..] && b[1..][..n - 1] == b[..n][1..];
      assert DiffersAt(a[1..], b[1..], n - 1);
    }
    if Before(a[1..], b[1..]) {
      var n: nat :| DiffersAt(a[1..], b[1..], n);
      assert a[..n + 1] == [a[0]] + a[1..][..n] && b[..n + 1] == [b[0]] + b[1..][..n];
      assert DiffersAt(a, b, n + 1);
    }
  }

  /** CompareBytes is negative exactly when a comes before b in the dictionary, and positive when b does. */
  lemma {:induction false} CompareBytesIsLexicographic(a: Bytes, b: Bytes)
    ensures CompareBytes(a, b) < 0 <==> Before(a, b)
    ensures CompareBytes(a, b) > 0 <==> Before(b, a)
  {
    if a != [] && b != [] && a[0] == b[0] {
      BeforeTails(a, b);
      BeforeTails(b, a);
      CompareBytesIsLexicographic(a[1..], b[1..]);
    } else {
      assert DiffersAt(a, b, 0) <==> CompareBytes(a, b) < 0;
      assert DiffersAt(b, a, 0) <==> CompareBytes(a, b) > 0;
      assert forall n: nat :: n > 0 && n <= |a| && n <= |b| ==> a[..n][0] == a[0] && b[..n][0] == b[0];
    }
  }

  /** Between byte strings of one length, dictionary order is the order of the numbers they spell. */
  lemma {:induction false} NumbersInOrder(a: Bytes, b: Bytes)
    requires |a| == |b|
    ensures Before(a, b) <==> BigEndian(a) < BigEndian(b)
    ensures a == b <==> BigEndian(a) == BigEndian(b)
  {
    if a != [] {
      var n := |a| - 1;
      NumbersInOrder(a[..n], b[..n]);
      LastDigit(a, b);
      assert a == a[..n] + [a[n]] && b == b[..n] + [b[n]];
    } else {
      assert forall n: nat :: !DiffersAt(a, b, n);
    }
  }

  lemma {:induction false} LastDigit(a: Bytes, b: Bytes)
    requires |a| == |b| > 0
    ensures var n := |a| - 1;
            Before(a, b) <==> Before(a[..n], b[..n]) || (a[..n] == b[..n] && a[n] < b[n])
  {
    var n := |a| - 1;
    if Before(a, b) {
      var k: nat :| DiffersAt(a, b, k);
      if k < n {
        assert a[..n][..k] == a[..k] && b[..n][..k] == b[..k];
        assert DiffersAt(a[..n], b[..n], k);
      }
    }
    if Before(a[..n], b[..n]) {
      var k: nat :| DiffersAt(a[..n], b[..n], k);
      assert a[..n][..k] == a[..k] && b[..n][..k] == b[..k];
      assert DiffersAt(a, b, k);
    }
    if a[..n] == b[..n] && a[n] < b[n] {
      assert DiffersAt(a, b, n);
    }
  }

  /** User keys in dictionary order, versions of one key newest first; the kind takes no part. */
  lemma {:induction false} CompareIsOrder(a: InternalKey, b: InternalKey)
    ensures Compare(a, b) < 0 <==> Before(a.userKey, b.userKey) || (a.userKey == b.userKey && a.seqno > b.seqno)
    ensures Compare(a, b) > 0 <==> Before(b.userKey, a.userKey) || (a.userKey == b.userKey && a.seqno < b.seqno)
  {
    CompareBytesIsLexicographic(a.userKey, b.userKey);
    CompareBytesAntisymmetric(a.userKey, b.userKey);
  }

  /** Compare is antisymmetric, and calls two keys equal exactly when user key and sequence number agree. */
  lemma {:induction false} CompareAntisymmetric(a: InternalKey, b: InternalKey)
    ensures Compare(a, b) == -Compare(b, a)
    ensures Compare(a, b) == 0 <==> a.userKey == b.userKey && a.seqno == b.seqno
  {
    CompareBytesAntisymmetric(a.userKey, b.userKey);
  }

  lemma {:induction false} CompareTransitive(a: InternalKey, b: InternalKey, c: InternalKey)
    requires Compare(a, b) <= 0 && Compare(b, c) <= 0
    ensures Compare(a, c) <= 0
    ensures Compare(a, b) < 0 || Compare(b, c) < 0 ==> Compare(a, c) < 0
  {
    CompareBytesAntisymmetric(a.userKey, b.userKey);
    CompareBytesAntisymmetric(b.userKey, c.userKey);
    CompareBytesTransitive(a.userKey, b.userKey, c.userKey);
  }

  /** [userKey][seqno:8][kind:1] */
  function EncodeKey(k: InternalKey): (s: Bytes)
    ensures |s| == |k.userKey| + 9
  {
    k.userKey + U64(k.seqno) + [k.kind]
  }

  /** The decoder takes the last nine bytes for sequence number and kind; None is ErrCorruptInternalKey. */
  function DecodeKey(s: Bytes): (r: Option<InternalKey>)
    ensures r.Some? ==> ValidKind(r.value.kind) && |r.value.userKey| + 9 == |s|
  {
    var n := |s|;
    if n < 9 || !ValidKind(s[n - 1]) then None
    else Some(InternalKey(s[..n - 9], GetU64(s[n - 9..n - 1]), s[n - 1]))
  }

  /** A key survives its encoding exactly when its kind is one the format knows. */
  lemma {:induction false} KeyRoundTrip(k: InternalKey)
    ensures DecodeKey(EncodeKey(k)) == Some(k) <==> ValidKind(k.kind)
    ensures !ValidKind(k.kind) ==> DecodeKey(EncodeKey(k)) == None
  {
    var s := EncodeKey(k);
    var n := |s|;
    assert s[n - 1] == k.kind;
    assert s[..n - 9] == k.userKey;
    assert s[n - 9..n - 1] == U64(k.seqno) + [];
    U64RoundTrip(k.seqno, []);
  }

  /** Whatever the decoder accepts is the encoding of what it returns. */
  lemma {:induction false} KeyCanonical(s: Bytes)
    requires DecodeKey(s).Some?
    ensures EncodeKey(DecodeKey(s).value) == s
  {
    var n := |s|;
    U64Canonical(s[n - 9..n - 1]);
    assert s == s[..n - 9] + s[n - 9..n - 1] + [s[n - 1]];
  }

  /** InternalKey.Encode: one buffer, filled field by field. */
  method Encode(k: InternalKey) returns (buf: array<byte>)
    ensures fresh(buf)
    ensures buf[..] == EncodeKey(k)
  {
    var keySize := |k.userKey|;
    buf := new byte[keySize + 9];
    PutBytes(buf, 0, k.userKey);
    PutUint64(buf, keySize, k.seqno);
    buf[keySize + 8] := k.kind;
    assert buf[..] == buf[..keySize + 8] + [k.kind];
  }
}
