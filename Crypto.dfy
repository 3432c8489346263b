/**
 * The signature scheme, kept abstract. A `Scheme` bundles the three primitives the
 * code calls (`PrivateKey.pub().keyToBin()`, `PrivateKey.sign`, `PublicKey.verify`);
 * nothing is assumed about them except, where a property needs it, `Sound`: a genuine
 * signature verifies under the matching public key.
 */
module Crypto {
  import opened Bytes

  const SignatureSize := 64

  /** An Ed25519 signature: always 64 bytes. */
  type Signature = s: seq<byte> | |s| == SignatureSize witness seq(64, _ => 0 as byte)

  datatype PrivateKey = PrivateKey(material: seq<byte>)

  datatype Scheme = Scheme(
    pub: PrivateKey -> KeyBin,
    sign: (PrivateKey, seq<byte>) -> Signature,
    verify: (seq<byte>, seq<byte>, seq<byte>) -> bool)

  /** The one assumption about the cryptography: signing then verifying with the matching key succeeds. */
  ghost predicate Sound(c: Scheme) {
    forall k, m :: c.verify(c.pub(k), c.sign(k, m), m)
  }
}
