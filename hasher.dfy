/**
 * The prefix fingerprint of the `fconx` crate (`Sha1Hasher`): SHA-1 over at most the first
 * `BYTES_LEN` bytes of a file, as a hex string. The SHA-1 algorithm itself is the
 * function `digest` the hasher is built with.
 */
module Hasher {
  import opened WorkerPool

  type Byte = bv8

  const BYTES_LEN: nat := 2048

  /** The fingerprint of `bytes`: the digest of its first `min(BYTES_LEN, len)` bytes. */
  function Fingerprint(digest: seq<Byte> -> string, bytes: seq<Byte>): string {
    digest(bytes[..Min(BYTES_LEN, |bytes|)])
  }

  /** Two byte strings with the same first `BYTES_LEN` bytes get the same fingerprint. */
  lemma SamePrefixSameFingerprint(digest: seq<Byte> -> string, a: seq<Byte>, b: seq<Byte>)
    requires |a| >= BYTES_LEN && |b| >= BYTES_LEN && a[..BYTES_LEN] == b[..BYTES_LEN]
    ensures Fingerprint(digest, a) == Fingerprint(digest, b)
  {
  }

  /** An input shorter than `BYTES_LEN` is hashed in full. */
  lemma ShortInputHashedInFull(digest: seq<Byte> -> string, bytes: seq<Byte>)
    requires |bytes| <= BYTES_LEN
    ensures Fingerprint(digest, bytes) == digest(bytes)
  {
    assert bytes[..|bytes|] == bytes;
  }

  /** Appending to a file of at least `BYTES_LEN` bytes does not change its fingerprint. */
  lemma AppendKeepsFingerprint(digest: seq<Byte> -> string, bytes: seq<Byte>, more: seq<Byte>)
    requires |bytes| >= BYTES_LEN
    ensures Fingerprint(digest, bytes + more) == Fingerprint(digest, bytes)
  {
    assert (bytes + more)[..BYTES_LEN] == bytes[..BYTES_LEN];
  }

  /**
   * `Sha1Hasher`: a SHA-1 state that `create_sha1` feeds, reads and resets. `pending`
   * is the input fed since the last reset.
   */
  class Sha1Hasher {
    const digest: seq<Byte> -> string
    var pending: seq<Byte>

    /** `Sha1Hasher::new`: a fresh state with nothing fed. */
    constructor (digest: seq<Byte> -> string)
      ensures this.digest == digest && pending == []
    {
      this.digest := digest;
      pending := [];
    }

    /**
     * `create_sha1`: feeds the first `min(BYTES_LEN, len)` bytes, reads the digest and
     * resets, so the result depends on this input alone and the next call starts clean.
     */
    method CreateSha1(bytes: seq<Byte>) returns (sha1: string)
      requires pending == []
      modifies this
      ensures sha1 == Fingerprint(digest, bytes)
      ensures pending == []
    {
      var idx := Min(BYTES_LEN, |bytes|);
      pending := pending + bytes[..idx];
      assert pending == bytes[..idx];
      sha1 := digest(pending);
      pending := [];
    }
  }

  /** Two fingerprints from one hasher: the second does not depend on the first input. */
  method HashTwice(h: Sha1Hasher, a: seq<Byte>, b: seq<Byte>) returns (fa: string, fb: string)
    requires h.pending == []
    modifies h
    ensures fa == Fingerprint(h.digest, a) && fb == Fingerprint(h.digest, b)
    ensures h.pending == []
  {
    fa := h.CreateSha1(a);
    fb := h.CreateSha1(b);
  }
}
