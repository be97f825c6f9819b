/** The primitives that Go and the contract share. They are parameters: nothing below depends on what they compute,
    except for the one law that a signature recovers to the address of its key. */
module Crypto {
  import opened Wrappers
  import opened Numerals
  import opened Bytes

  datatype Key = Key(secret: nat)

  /** R, S and the recovery id. */
  type RawSignature = b: ByteString | |b| == 65 && b[64] <= 1 witness Zeros(65)

  datatype Crypto = Crypto(
    /** Keccak-256 */
    keccak: ByteString -> Word,
    /** crypto.Sign */
    sign: (Key, Word) -> RawSignature,
    /** Public key recovery from a digest and 65 bytes in the same layout, as an address */
    recover: (Word, ByteString) -> Option<Address>,
    /** crypto.PubkeyToAddress of the key's public key */
    address: Key -> Address,
    /** S is in the lower half of the curve order, the only half that the contract's library takes */
    lowS: Word -> bool)

  predicate RecoversTo(c: Crypto, digest: Word, signature: RawSignature, signer: Address) {
    && c.lowS(signature[32..64])
    && c.recover(digest, signature) == Some(signer)
    && signer != ZERO_ADDRESS
  }

  /** recover(h, sign(k, h)) = address(k) */
  ghost predicate Lawful(c: Crypto) {
    forall key, digest :: RecoversTo(c, digest, c.sign(key, digest), c.address(key))
  }
}
