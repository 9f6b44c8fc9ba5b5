/** Conversions between small integers and bytes, kept apart from the
    encoder so that their proofs see nothing else. */
module Bytes {

  /** A value below 64 survives the conversion to a byte and back. */
  lemma SmallByte(n: int)
    requires 0 <= n < 64
    ensures (n as bv8) as int == n
  {
  }

  /** A value below 64 stays below 64 as a byte. */
  lemma SmallSextet(n: int)
    requires 0 <= n < 64
    ensures n as bv8 < 64
  {
  }
}
