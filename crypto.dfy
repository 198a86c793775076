/**
 * The envelope and key-wrap primitives of the record store, in the symbolic
 * (Dolev-Yao) style: keys, shared secrets, ciphertexts and tags are terms.
 * A term can be compared for equality but never taken apart by the protocol
 * code, so the only way to obtain a plaintext is to decrypt with the very key
 * and nonce it was sealed under.
 *
 * - AES-256-GCM (NIST SP 800-38D) is `GcmEncrypt`/`GcmDecrypt`: decryption
 *   succeeds exactly when the key and IV are those of the ciphertext and the
 *   tag is the tag of that ciphertext.
 * - ECDH on P-256 (SEC 1 v2 section 3.3.1) is `Ecdh`: the shared secret of a
 *   private scalar and a public point is the unordered pair of the two
 *   scalars, which gives commutativity of scalar multiplication for free and
 *   makes the secret determine its two parties.
 * - HKDF-SHA256 (RFC 5869 sections 2.2 and 2.3) is the key term `HkdfKey`,
 *   which records the input keying material, the salt, the info string and the
 *   output length.
 */
module Crypto {
  import opened Wrappers
  import opened Encoding

  /** A P-256 private scalar, as an abstract value. */
  datatype PrivKey = PrivKey(scalar: nat)

  /**
   * A public point `scalar * G`; only `PubOf` builds one. Only the symbolic
   * ECDH (`Ecdh`) and proofs about it read the scalar back; no route does.
   */
  datatype PubKey = Point(dlog: PrivKey)

  function PubOf(k: PrivKey): PubKey {
    Point(k)
  }

  datatype Keypair = Keypair(pub: PubKey, priv: PrivKey)

  /** `genECKeypair`: `draw` is the scalar drawn by `ec.genKeyPair()`. */
  function GenECKeypair(draw: PrivKey): (kp: Keypair)
    ensures kp.pub == PubOf(kp.priv)
    ensures kp.priv == draw
  {
    Keypair(PubOf(draw), draw)
  }

  /** The x-coordinate of the point `a * b * G`, symbolically the multiset of the two scalars. */
  datatype Secret = Shared(parties: multiset<PrivKey>)

  /** `key.derive(peer)`: ECDH between a private scalar and a public point. */
  function Ecdh(own: PrivKey, peer: PubKey): (s: Secret)
    ensures own in s.parties && |s.parties| == 2
  {
    Shared(multiset{own, peer.dlog})
  }

  /** Both ends of an ECDH exchange compute the same secret. */
  lemma EcdhCommutes(a: PrivKey, b: PrivKey)
    ensures Ecdh(a, PubOf(b)) == Ecdh(b, PubOf(a))
  {
  }

  /** For a fixed ephemeral public key, the secret determines the recipient's public key. */
  lemma EcdhBindsRecipient(eph: PrivKey, recipient: PubKey, priv: PrivKey)
    requires Ecdh(priv, PubOf(eph)) == Ecdh(eph, recipient)
    ensures PubOf(priv) == recipient
  {
    assert multiset{priv, eph} == multiset{eph, recipient.dlog};
  }

  /** Keys AES-256-GCM is keyed with: random bytes, or the output of HKDF. */
  datatype AesKey =
    | RawKey(bytes: seq<byte>)
    | HkdfKey(ikm: Secret, salt: seq<byte>, info: string, length: nat)

  function KeyLength(k: AesKey): nat {
    match k
    case RawKey(b) => |b|
    case HkdfKey(_, _, _, n) => n
  }

  /** A GCM ciphertext; its length in bytes is that of `plaintext` (GCM is a stream mode). */
  datatype Ciphertext = Gcm(key: AesKey, iv: seq<byte>, plaintext: seq<byte>)

  /** The 16-byte GCM authentication tag of a ciphertext under a key and IV. */
  datatype AuthTag = GcmTag(key: AesKey, iv: seq<byte>, body: Ciphertext)

  datatype CryptoError = InvalidKeyLength | InvalidIv | AuthFailure

  datatype Sealed = Sealed(ciphertext: Ciphertext, tag: AuthTag)

  /**
   * `createCipheriv('aes-256-gcm', key, iv)`, `update`, `final` and
   * `getAuthTag`: the sealed text and its tag, which open under the same key
   * and IV and under nothing else.
   */
  function GcmEncrypt(key: AesKey, iv: seq<byte>, plaintext: seq<byte>): (r: Sealed)
    ensures |r.ciphertext.plaintext| == |plaintext|
    ensures forall key', iv' :: r.tag == GcmTag(key', iv', r.ciphertext) ==> key' == key && iv' == iv
  {
    var ct := Gcm(key, iv, plaintext);
    Sealed(ct, GcmTag(key, iv, ct))
  }

  /**
   * `createDecipheriv('aes-256-gcm', key, iv)`, `setAuthTag`, `update` and
   * `final`: a key that is not 32 bytes or an empty IV throws at creation;
   * `final` throws unless the tag verifies, and then nothing is returned.
   */
  function GcmDecrypt(key: AesKey, iv: seq<byte>, tag: AuthTag, ct: Ciphertext): (r: Result<seq<byte>, CryptoError>)
    ensures r.Ok? ==> KeyLength(key) == 32 && |iv| > 0 && GcmEncrypt(key, iv, r.value) == Sealed(ct, tag)
    ensures KeyLength(key) == 32 && |iv| > 0 && GcmEncrypt(key, iv, ct.plaintext) == Sealed(ct, tag) ==> r == Ok(ct.plaintext)
    ensures r.Err? && KeyLength(key) == 32 && |iv| > 0 ==> r.error == AuthFailure
  {
    if KeyLength(key) != 32 then Err(InvalidKeyLength)
    else if |iv| == 0 then Err(InvalidIv)
    else if ct.key == key && ct.iv == iv && tag == GcmTag(key, iv, ct) then Ok(ct.plaintext)
    else Err(AuthFailure)
  }

  /** What `aesEncryptBuffer` returns: ciphertext, IV, tag and the data key, hex encoded. */
  datatype EncryptedBuffer = EncryptedBuffer(ciphertext: Ciphertext, iv: string, tag: AuthTag, symKey: string)

  /**
   * `aesEncryptBuffer(buffer)`: `key` and `iv` are the 32 and 12 bytes drawn by
   * `crypto.randomBytes` for this call.
   */
  function AesEncryptBuffer(buffer: seq<byte>, key: seq<byte>, iv: seq<byte>): (r: EncryptedBuffer)
    requires |key| == 32 && |iv| == 12
    ensures |r.symKey| == 64 && IsLowerHex(r.symKey) && FromHex(r.symKey) == key
    ensures |r.iv| == 24 && IsLowerHex(r.iv) && FromHex(r.iv) == iv
    ensures r.ciphertext.plaintext == buffer && r.ciphertext.key == RawKey(key)
  {
    FromHexToHex(key);
    FromHexToHex(iv);
    var sealed := GcmEncrypt(RawKey(key), iv, buffer);
    EncryptedBuffer(sealed.ciphertext, ToHex(iv), sealed.tag, ToHex(key))
  }

  /** `aesDecryptBuffer(ciphertextHex, ivHex, tagHex, symKeyHex)`. */
  function AesDecryptBuffer(ciphertext: Ciphertext, ivHex: string, tag: AuthTag, symKeyHex: string): (r: Result<seq<byte>, CryptoError>)
    ensures r.Ok? ==> ciphertext == Gcm(RawKey(FromHex(symKeyHex)), FromHex(ivHex), r.value)
    ensures r.Ok? ==> tag == GcmTag(RawKey(FromHex(symKeyHex)), FromHex(ivHex), ciphertext)
  {
    GcmDecrypt(RawKey(FromHex(symKeyHex)), FromHex(ivHex), tag, ciphertext)
  }

  /** Decrypting what `aesEncryptBuffer` returned gives back the buffer. */
  lemma AesRoundTrip(buffer: seq<byte>, key: seq<byte>, iv: seq<byte>)
    requires |key| == 32 && |iv| == 12
    ensures var r := AesEncryptBuffer(buffer, key, iv);
            AesDecryptBuffer(r.ciphertext, r.iv, r.tag, r.symKey) == Ok(buffer)
  {
  }

  /** Decryption under any other key bytes fails at the tag check and yields nothing. */
  lemma AesWrongKeyRejected(buffer: seq<byte>, key: seq<byte>, iv: seq<byte>, otherHex: string)
    requires |key| == 32 && |iv| == 12
    requires FromHex(otherHex) != key
    ensures var r := AesEncryptBuffer(buffer, key, iv);
            AesDecryptBuffer(r.ciphertext, r.iv, r.tag, otherHex).Err?
  {
  }

  const KekInfo: string := "ehr-kek"

  /**
   * `deriveKek(shared)`: HKDF-SHA256 over the 32-byte big-endian encoding of
   * the shared secret (see `Encoding.ToBigEndian` at width 32), with an empty salt,
   * info "ehr-kek" and 32 bytes of output.
   */
  function DeriveKek(shared: Secret): (k: AesKey)
    ensures KeyLength(k) == 32
    ensures k.HkdfKey? && k.salt == [] && k.info == KekInfo && k.ikm == shared
  {
    HkdfKey(shared, [], KekInfo, 32)
  }

  /** What `wrapKeyToPub` returns; the ephemeral private scalar is not part of it. */
  datatype WrapArtifact = WrapArtifact(ephPub: PubKey, wrapped: Ciphertext, iv: string, tag: AuthTag)

  /**
   * `wrapKeyToPub(symKeyHex, recipientPubHex)`: `eph` is the fresh ephemeral
   * scalar from `ec.genKeyPair()` and `iv` the 12 bytes from `randomBytes`.
   */
  function WrapKeyToPub(symKeyHex: string, recipient: PubKey, eph: PrivKey, iv: seq<byte>): (w: WrapArtifact)
    requires |iv| == 12
    ensures w.ephPub == PubOf(eph)
    ensures FromHex(w.iv) == iv && |w.iv| == 24
    ensures w.wrapped.plaintext == FromHex(symKeyHex)
    ensures w.wrapped.key == DeriveKek(Ecdh(eph, recipient))
  {
    FromHexToHex(iv);
    var kek := DeriveKek(Ecdh(eph, recipient));
    var sealed := GcmEncrypt(kek, iv, FromHex(symKeyHex));
    WrapArtifact(PubOf(eph), sealed.ciphertext, ToHex(iv), sealed.tag)
  }

  /** `unwrapKeyFromEph(wrappedHex, ephPubHex, recipientPrivHex, ivHex, tagHex)`. */
  function UnwrapKeyFromEph(wrapped: Ciphertext, ephPub: PubKey, priv: PrivKey, ivHex: string, tag: AuthTag): (r: Result<string, CryptoError>)
    ensures r.Ok? ==> r.value == ToHex(wrapped.plaintext) && IsLowerHex(r.value)
    ensures r.Ok? <==> wrapped.key == DeriveKek(Ecdh(priv, ephPub)) && |FromHex(ivHex)| > 0
                       && wrapped.iv == FromHex(ivHex) && tag == GcmTag(wrapped.key, wrapped.iv, wrapped)
  {
    match GcmDecrypt(DeriveKek(Ecdh(priv, ephPub)), FromHex(ivHex), tag, wrapped)
    case Ok(out) => Ok(ToHex(out))
    case Err(e) => Err(e)
  }

  /** Unwrapping an artifact with its fields. */
  function Unwrap(w: WrapArtifact, priv: PrivKey): Result<string, CryptoError> {
    UnwrapKeyFromEph(w.wrapped, w.ephPub, priv, w.iv, w.tag)
  }

  /** The wrapper and the unwrapper derive the same key-encryption key. */
  lemma KekAgreement(eph: PrivKey, recipient: PrivKey)
    ensures DeriveKek(Ecdh(eph, PubOf(recipient))) == DeriveKek(Ecdh(recipient, PubOf(eph)))
  {
    EcdhCommutes(eph, recipient);
  }

  /**
   * Unwrapping with the recipient's private key returns the wrapped data key,
   * as lowercase hex; for a key given in lowercase hex that is the input itself.
   */
  lemma WrapUnwrapRoundTrip(symKeyHex: string, priv: PrivKey, eph: PrivKey, iv: seq<byte>)
    requires |iv| == 12
    ensures Unwrap(WrapKeyToPub(symKeyHex, PubOf(priv), eph, iv), priv) == Ok(ToHex(FromHex(symKeyHex)))
    ensures IsLowerHex(symKeyHex) ==> Unwrap(WrapKeyToPub(symKeyHex, PubOf(priv), eph, iv), priv) == Ok(symKeyHex)
  {
    var w := WrapKeyToPub(symKeyHex, PubOf(priv), eph, iv);
    KekAgreement(eph, priv);
    assert w.wrapped.key == DeriveKek(Ecdh(priv, w.ephPub));
    if IsLowerHex(symKeyHex) {
      ToHexFromHex(symKeyHex);
    }
  }

  /** Unwrapping succeeds exactly for a private key whose public key the data key was wrapped to. */
  lemma UnwrapSucceedsIff(symKeyHex: string, recipient: PubKey, eph: PrivKey, iv: seq<byte>, priv: PrivKey)
    requires |iv| == 12
    ensures Unwrap(WrapKeyToPub(symKeyHex, recipient, eph, iv), priv).Ok? <==> PubOf(priv) == recipient
    ensures PubOf(priv) != recipient ==>
              Unwrap(WrapKeyToPub(symKeyHex, recipient, eph, iv), priv) == Err(AuthFailure)
  {
    var w := WrapKeyToPub(symKeyHex, recipient, eph, iv);
    if PubOf(priv) == recipient {
      WrapUnwrapRoundTrip(symKeyHex, priv, eph, iv);
    } else if Unwrap(w, priv).Ok? {
      assert DeriveKek(Ecdh(priv, PubOf(eph))) == DeriveKek(Ecdh(eph, recipient));
      EcdhBindsRecipient(eph, recipient, priv);
      assert false;
    }
  }

  /**
   * Altering exactly one of the ciphertext, the IV bytes or the tag of an
   * artifact makes unwrapping fail, even with the right private key.
   */
  lemma TamperedArtifactRejected(w: WrapArtifact, symKeyHex: string, priv: PrivKey, eph: PrivKey, iv: seq<byte>,
                                 wrapped': Ciphertext, ivHex': string, tag': AuthTag)
    requires |iv| == 12 && w == WrapKeyToPub(symKeyHex, PubOf(priv), eph, iv)
    requires || (wrapped' != w.wrapped && ivHex' == w.iv && tag' == w.tag)
             || (wrapped' == w.wrapped && FromHex(ivHex') != iv && tag' == w.tag)
             || (wrapped' == w.wrapped && ivHex' == w.iv && tag' != w.tag)
    ensures UnwrapKeyFromEph(wrapped', w.ephPub, priv, ivHex', tag').Err?
  {
  }

  /**
   * Whatever is unwrapped successfully was sealed under the key derived from
   * the unwrapper's secret: no other artifact opens.
   */
  lemma UnwrapAuthentic(wrapped: Ciphertext, ephPub: PubKey, priv: PrivKey, ivHex: string, tag: AuthTag)
    requires UnwrapKeyFromEph(wrapped, ephPub, priv, ivHex, tag).Ok?
    ensures GcmEncrypt(DeriveKek(Ecdh(priv, ephPub)), FromHex(ivHex), wrapped.plaintext) == Sealed(wrapped, tag)
  {
  }

  /**
   * Two private keys that both open the same artifact are the same key: the
   * artifact admits one recipient.
   */
  lemma UnwrapSingleRecipient(w: WrapArtifact, p: PrivKey, q: PrivKey)
    requires Unwrap(w, p).Ok? && Unwrap(w, q).Ok?
    ensures p == q
  {
    var m := w.wrapped.key.ikm.parties;
    assert m == multiset{p, w.ephPub.dlog} == multiset{q, w.ephPub.dlog};
    assert m[p] == multiset{q, w.ephPub.dlog}[p];
  }
}
