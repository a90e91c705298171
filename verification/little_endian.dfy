/** Bytes, and numbers laid out least significant byte first. */
module LittleEndian {

  type Byte = b: int | 0 <= b < 256
  type Bytes = seq<Byte>

  /** The low `k` bytes of `n`. */
  function LowBytes(n: nat, k: nat): (b: Bytes)
    ensures |b| == k
  {
    if k == 0 then [] else [n % 256] + LowBytes(n / 256, k - 1)
  }
}
