/** Vocabulary shared by the models: bytes, options, digests and machine widths. */
module Basics {

  newtype byte = b: int | 0 <= b < 256
  type Bytes = seq<byte>

  /** The text of a C string: its characters are bytes. */
  type Name = Bytes
  const SLASH: byte := 0x2F

  datatype Option<+T> = None | Some(value: T)

  /** One past the largest `uint32_t`. */
  const TWO32: nat := 0x1_0000_0000

  /** A SHA-256 sized field. */
  const HASH_LEN: nat := 32
  type Hash = b: Bytes | |b| == HASH_LEN witness Zeros(HASH_LEN)
  const ZERO_HASH: Hash := Zeros(HASH_LEN)

  /** `memset(buf, 0, n)` */
  function Zeros(n: nat): (r: Bytes)
    ensures |r| == n
    ensures forall k :: 0 <= k < n ==> r[k] == 0
  {
    seq(n, (k: nat) => 0)
  }

  /** A digest function is a parameter of every statement: nothing but its output size is used.
      In particular it is never taken to be injective. */
  type DigestFunction = Bytes -> Hash

  /** The C cast `(uint32_t)n`. */
  function ToUint32(n: nat): (r: nat)
    ensures r < TWO32
  {
    n % TWO32
  }
}
