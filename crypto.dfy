/**
 * The cipher-suite provider as the group-state logic sees it. Every primitive
 * is an uninterpreted function value taking the cipher-suite identifier first;
 * nothing is assumed about them except where a lemma names one of the
 * correctness laws below as a precondition.
 */
module Crypto {
  import opened Codec
  import opened Tree

  /** The cipher-suite identifier of RFC 9420 section 17.1 (a uint16). */
  type SuiteId = U16

  datatype HpkeKeyPair = HpkeKeyPair(privateKey: Bytes, publicKey: Bytes)

  datatype HpkeCiphertext = HpkeCiphertext(kemOutput: Bytes, ciphertext: Bytes)

  datatype CryptoError = EncryptError | DecryptError | SignError

  datatype Crypto = Crypto(
    hashLen: SuiteId -> nat,
    keyLen: SuiteId -> nat,
    nonceLen: SuiteId -> nat,
    hash: (SuiteId, Wire) -> Bytes,
    /** mac(suite, key, message) */
    mac: (SuiteId, Bytes, Wire) -> Bytes,
    /** extract(suite, salt, ikm) */
    extract: (SuiteId, Bytes, Bytes) -> Bytes,
    deriveSecret: (SuiteId, Bytes, string) -> Bytes,
    /** expandWithLabel(suite, secret, label, context, length) */
    expandWithLabel: (SuiteId, Bytes, string, Bytes, nat) -> Bytes,
    /** encryptWithLabel(suite, public key, label, context, plaintext), RFC 9420 section 5.1.3 */
    encryptWithLabel: (SuiteId, Bytes, string, Bytes, Wire) -> Result<HpkeCiphertext, CryptoError>,
    decryptWithLabel: (SuiteId, HpkeKeyPair, string, Bytes, HpkeCiphertext) -> Result<Wire, CryptoError>,
    /** The HPKE public key that belongs to an HPKE private key. */
    hpkePublicKey: (SuiteId, Bytes) -> Bytes,
    /** encryptAead(suite, key, nonce, aad, plaintext) */
    encryptAead: (SuiteId, Bytes, Bytes, Bytes, Wire) -> Bytes,
    decryptAead: (SuiteId, Bytes, Bytes, Bytes, Bytes) -> Result<Wire, CryptoError>,
    /** signWithLabel(suite, private key, label, content), RFC 9420 section 5.1.2 */
    signWithLabel: (SuiteId, Bytes, string, Wire) -> Result<Bytes, CryptoError>,
    verifyWithLabel: (SuiteId, Bytes, string, Wire, Bytes) -> bool,
    /** The signature public key that belongs to a signature private key. */
    signaturePublicKey: (SuiteId, Bytes) -> Bytes,
    /** The tree hash of RFC 9420 section 7.8. */
    treeHash: (SuiteId, RatchetTree) -> Bytes,
    /** parentHash(suite, tree, node, leaf): the parent hash of `node` as seen from `leaf`'s side (section 7.9). */
    parentHash: (SuiteId, RatchetTree, NodeIndex, LeafIndex) -> Bytes)

  /** `kp` is a genuine key pair of suite `s`: its public key belongs to its private key. */
  predicate MatchingHpkeKeyPair(c: Crypto, s: SuiteId, kp: HpkeKeyPair)
  {
    kp.publicKey == c.hpkePublicKey(s, kp.privateKey)
  }

  /**
   * Decrypting with a genuine key pair what was encrypted to its public key,
   * with the same label and context, gives the plaintext back.
   */
  ghost predicate HpkeRoundTrip(c: Crypto)
  {
    forall s: SuiteId, kp: HpkeKeyPair, lbl: string, context: Bytes, pt: Wire ::
      MatchingHpkeKeyPair(c, s, kp) && c.encryptWithLabel(s, kp.publicKey, lbl, context, pt).Success? ==>
        c.decryptWithLabel(s, kp, lbl, context, c.encryptWithLabel(s, kp.publicKey, lbl, context, pt).value) == Success(pt)
  }

  /** AEAD decryption inverts encryption under the same key, nonce and associated data. */
  ghost predicate AeadRoundTrip(c: Crypto)
  {
    forall s: SuiteId, key: Bytes, nonce: Bytes, aad: Bytes, pt: Wire ::
      c.decryptAead(s, key, nonce, aad, c.encryptAead(s, key, nonce, aad, pt)) == Success(pt)
  }

  /** A signature made with a private key verifies under its public key, label and content. */
  ghost predicate SignatureCorrect(c: Crypto)
  {
    forall s: SuiteId, sk: Bytes, lbl: string, content: Wire ::
      c.signWithLabel(s, sk, lbl, content).Success? ==>
        c.verifyWithLabel(s, c.signaturePublicKey(s, sk), lbl, content, c.signWithLabel(s, sk, lbl, content).value)
  }
}
