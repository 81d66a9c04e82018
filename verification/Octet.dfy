/** Bytes, and lengths that fit one. */
module Octet {

  type Byte = bv8

  lemma ByteOfLength(n: nat)
    requires n < 256
    ensures (n as bv8) as int == n
  {
  }

  function Length8(n: nat): (b: Byte)
    requires n < 256
    ensures b as int == n
  {
    ByteOfLength(n);
    n as Byte
  }
}
