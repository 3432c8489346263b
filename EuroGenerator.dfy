/**
 * EuroGenerator.kt: the earliest token format, a self-authenticating blob. A token is
 * the ASCII bytes "TOKEN", a 128-byte random nonce, and the generator's signature
 * over those 133 bytes.
 */
module EuroGenerator {
  import opened Bytes
  import Crypto

  const TokenNonceSize := 128
  /** "TOKEN" in US-ASCII. */
  const TokenString: seq<byte> := [84, 79, 75, 69, 78]
  const TokenStringSize := |TokenString|
  const TotalSize := TokenNonceSize + TokenStringSize + Crypto.SignatureSize
  const EndOfNonceIndex := TokenNonceSize + TokenStringSize - 1

  /** The generator's fixed private key, as the bytes `keyFromPrivateBin` is given (read unsigned). */
  const GeneratorKey := Crypto.PrivateKey([
    76, 105, 98, 78, 97, 67, 76, 83, 75, 58, 227, 142, 126, 209, 217, 251, 22, 89, 94, 71,
    255, 118, 226, 120, 248, 181, 2, 102, 99, 235, 57, 161, 124, 126, 226, 33, 157, 37, 131, 151,
    20, 211, 94, 2, 147, 125, 98, 204, 84, 202, 209, 13, 15, 75, 73, 11, 128, 5, 252, 155,
    102, 255, 161, 33, 149, 179, 215, 89, 102, 44, 71, 107, 1, 107])

  /** The random part of a token; `Random.nextBytes` becomes this parameter. */
  type Nonce = s: seq<byte> | |s| == TokenNonceSize witness seq(128, _ => 0 as byte)

  /** `generateToken`: the header, the nonce, then the signature over both. */
  function GenerateToken(c: Crypto.Scheme, nonce: Nonce): (token: seq<byte>)
    ensures |token| == TotalSize == 197
    ensures token[..TokenStringSize] == TokenString
    ensures token[TokenStringSize..EndOfNonceIndex + 1] == nonce
    ensures token[EndOfNonceIndex + 1..] == c.sign(GeneratorKey, token[..EndOfNonceIndex + 1])
  {
    var unsigned := TokenString + nonce;
    assert (unsigned + c.sign(GeneratorKey, unsigned))[..EndOfNonceIndex + 1] == unsigned;
    unsigned + c.sign(GeneratorKey, unsigned)
  }

  /**
   * `verifyToken`: a token is accepted only if it is exactly 197 bytes long, starts with
   * "TOKEN", and bytes 133 to 197 are a signature over bytes 0 to 133 under the generator's
   * public key. The signature is checked only once the size and the header match.
   */
  function VerifyToken(c: Crypto.Scheme, token: seq<byte>): (ok: bool)
    ensures |token| != TotalSize ==> !ok
    ensures |token| == TotalSize && token[..TokenStringSize] != TokenString ==> !ok
    ensures |token| == TotalSize && token[..TokenStringSize] == TokenString ==>
      (ok <==> c.verify(c.pub(GeneratorKey), token[EndOfNonceIndex + 1..TotalSize], token[..EndOfNonceIndex + 1]))
  {
    && |token| == TotalSize
    && token[..TokenStringSize] == TokenString
    && c.verify(c.pub(GeneratorKey), token[EndOfNonceIndex + 1..TotalSize], token[..EndOfNonceIndex + 1])
  }

  /** Every generated token passes `verifyToken`, whatever the nonce, given a sound signature scheme. */
  lemma GeneratedTokenVerifies(c: Crypto.Scheme, nonce: Nonce)
    requires Crypto.Sound(c)
    ensures VerifyToken(c, GenerateToken(c, nonce))
  {
    var token := GenerateToken(c, nonce);
    assert token[EndOfNonceIndex + 1..TotalSize] == token[EndOfNonceIndex + 1..];
    assert c.verify(c.pub(GeneratorKey), c.sign(GeneratorKey, token[..EndOfNonceIndex + 1]), token[..EndOfNonceIndex + 1]);
  }

  /** Distinct nonces give distinct tokens: the nonce can be read back from a token. */
  lemma GenerateTokenInjective(c: Crypto.Scheme, n1: Nonce, n2: Nonce)
    ensures GenerateToken(c, n1) == GenerateToken(c, n2) <==> n1 == n2
  {
    if GenerateToken(c, n1) == GenerateToken(c, n2) {
      assert n1 == GenerateToken(c, n1)[TokenStringSize..EndOfNonceIndex + 1];
    }
  }
}
