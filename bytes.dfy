/** Octets, and the text a byte field stands for. */
module Bytes {

  newtype byte = b: int | 0 <= b < 0x100

  /** One character per byte, with the same code. For the ASCII hostnames and paths that stamps carry
      this is exactly what UTF-8 decoding gives. */
  function AsText(b: seq<byte>): (s: string)
    ensures |s| == |b|
    ensures forall i :: 0 <= i < |b| ==> s[i] as int == b[i] as int
  {
    seq(|b|, i requires 0 <= i < |b| => (b[i] as int) as char)
  }
}
