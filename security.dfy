/** The capability-token codec of `Argon2Security`: issuing a token, digesting it
    for storage and checking a presented token against a stored digest. SHA-256 and
    the legacy argon2 `verify_secret` are opaque: they are fields of `Crypto`, so
    every property below holds whatever those functions are. */
module Security {
  import opened Wrappers
  import opened PyText
  import opened Base64Url

  /** The cryptographic primitives the codec calls. `argon2VerifySecret` stands for
      `argon2.low_level.verify_secret`, with a raised mismatch (or a missing
      library) read as false. */
  datatype Crypto = Crypto(
    sha256: seq<byte> -> seq<byte>,
    argon2VerifySecret: (string, seq<byte>) -> bool)

  /** SHA-256 yields 32 bytes for every input. Only the lemmas that need the digest
      of an issued token to be non-empty assume this of `c`. */
  ghost predicate Sha256Width(c: Crypto) {
    forall b :: |c.sha256(b)| == 32
  }

  /** The prefix that marks a stored value as a legacy argon2 PHC string. */
  const Argon2Prefix: string := "$argon2"

  /** The number of random bytes in a capability token. */
  const TokenBytes: nat := 32

  /** The length of a capability token's text: 32 bytes in unpadded base64url. */
  const TokenLength: nat := 43

  /** `new_token`: the unpadded base64url text of 32 random bytes `raw`, the output
      of `secrets.token_bytes(32)`. */
  function NewToken(raw: seq<byte>): (token: string)
    requires |raw| == TokenBytes
    ensures |token| == TokenLength && AllUrlChars(token)
    ensures B64UrlToBytes(token) == Some(raw)
  {
    EncodeUnpaddedIsPrefix(raw);
    B64UrlRoundTrip(raw);
    EncodeUnpadded(raw)
  }

  /** `hash_token`: the unpadded base64url SHA-256 digest of the token's decoded
      bytes; None where decoding raises. */
  function HashToken(c: Crypto, token: string): (r: Option<string>)
    ensures r.Some? <==> B64UrlToBytes(token).Some?
    ensures r.Some? ==> AllUrlChars(r.value)
  {
    match B64UrlToBytes(token)
    case None => None
    case Some(raw) =>
      EncodeUnpaddedIsPrefix(c.sha256(raw));
      Some(EncodeUnpadded(c.sha256(raw)))
  }

  /** `verify`: a stored value starting with `$argon2` is checked only by the
      legacy argon2 routine; any other is compared with the digest recomputed from
      the presented token. A token that does not decode gives false, never an
      error. */
  function Verify(c: Crypto, phcHash: string, token: string): (ok: bool)
    ensures B64UrlToBytes(token).None? ==> !ok
    ensures Argon2Prefix <= phcHash ==>
              ok == (B64UrlToBytes(token).Some? && c.argon2VerifySecret(phcHash, B64UrlToBytes(token).value))
    ensures !(Argon2Prefix <= phcHash) ==> (ok <==> HashToken(c, token) == Some(phcHash))
  {
    if Argon2Prefix <= phcHash then
      match B64UrlToBytes(token)
      case None => false
      case Some(raw) => c.argon2VerifySecret(phcHash, raw)
    else
      match B64UrlToBytes(token)
      case None => false
      case Some(raw) => EncodeUnpadded(c.sha256(raw)) == phcHash
  }

  /** A digest made by `hash_token` never takes the legacy argon2 path. */
  lemma DigestIsNotArgon2(c: Crypto, token: string)
    requires HashToken(c, token).Some?
    ensures !(Argon2Prefix <= HashToken(c, token).value)
  {
    var h := HashToken(c, token).value;
    if |h| > 0 {
      assert IsUrlChar(h[0]);
    }
  }

  /** `verify(hash_token(t), t)` holds for every token that `hash_token` accepts. */
  lemma VerifyHashToken(c: Crypto, token: string)
    requires HashToken(c, token).Some?
    ensures Verify(c, HashToken(c, token).value, token)
  {
    DigestIsNotArgon2(c, token);
  }

  /** An issued token always has a digest, the digest of its 32 random bytes, and
      that digest verifies it. */
  lemma IssuedTokenVerifies(c: Crypto, raw: seq<byte>)
    requires |raw| == TokenBytes
    ensures HashToken(c, NewToken(raw)) == Some(EncodeUnpadded(c.sha256(raw)))
    ensures Verify(c, HashToken(c, NewToken(raw)).value, NewToken(raw))
  {
    VerifyHashToken(c, NewToken(raw));
  }
}
