/**
 * The digest engine. SHA-256 itself is not modelled: every operation that
 * needs it receives the hash as an uninterpreted total function `h`. The
 * incremental hasher of the source (`SHA256()`, `update`, `finalize`) is a
 * class that remembers every byte fed to it, in feed order; finalizing it
 * applies `h` to that sequence.
 */
module Hashing {

  newtype Byte = x: int | 0 <= x < 256

  /** A digest value (32 bytes for SHA-256; the length is not tracked). */
  type Digest = seq<Byte>

  type HashFunction = seq<Byte> -> Digest

  class Sha256 {
    /** Everything fed to this hasher so far, in feed order. */
    var fed: seq<Byte>

    constructor ()
      ensures fed == []
    {
      fed := [];
    }

    method Update(data: seq<Byte>)
      modifies this
      ensures fed == old(fed) + data
    {
      fed := fed + data;
    }

    /** The digest of everything fed so far; the hasher itself is not changed. */
    function Finalize(h: HashFunction): (d: Digest)
      reads this
      ensures d == h(fed)
    {
      h(fed)
    }
  }
}
