/** Bytes, machine integers and the small failure types every component shares. */
module Basics {

  type byte = b: int | 0 <= b < 0x100

  type uint32 = x: int | 0 <= x < 0x1_0000_0000

  type uint64 = x: int | 0 <= x < 0x1_0000_0000_0000_0000

  const MAX_UINT64: uint64 := 0xFFFF_FFFF_FFFF_FFFF

  type Bytes = seq<byte>

  datatype Option<+T> = None | Some(value: T)

  datatype Result<+T, +E> = Ok(value: T) | Err(error: E)

  /** Go's conversion of a length to uint32: the high bits are dropped. */
  function ToUint32(n: nat): uint32 {
    n % 0x1_0000_0000
  }

  /** A uint32 counter that is bumped wraps as the count itself would. */
  lemma {:induction false} BumpUint32(n: nat)
    ensures ToUint32(ToUint32(n) + 1) == ToUint32(n + 1)
  {
  }

  /** Go's conversion of a length to uint64. */
  function ToUint64(n: nat): uint64 {
    n % 0x1_0000_0000_0000_0000
  }

  lemma {:induction false} Assoc<T>(a: seq<T>, b: seq<T>, c: seq<T>)
    ensures (a + b) + c == a + (b + c)
  {
  }

  /** Any checksum of a byte string; nothing proved here depends on which one. */
  type Checksum = Bytes -> uint32
}
