/**
 * Welcome (RFC 9420 section 12.4.3.1): per-joiner `GroupSecrets` sealed to
 * each new member's init key, plus one AEAD-encrypted GroupInfo shared by all
 * recipients and keyed from the joiner and PSK secrets.
 */
module Welcomes {
  import opened Codec
  import opened Crypto
  import Psks
  import GroupInfos

  type PreSharedKeyId = Psks.PreSharedKeyId
  type GroupInfo = GroupInfos.GroupInfo

  const WELCOME_LABEL: string := "Welcome"

  /** A key package as the sender sees it: its reference and its HPKE init key. */
  datatype KeyPackage = KeyPackage(ref: Bytes, initKey: Bytes)

  /** A key package as its owner holds it: the reference and the init key pair. */
  datatype KeyPackagePrivate = KeyPackagePrivate(ref: Bytes, initKeyPair: HpkeKeyPair)

  datatype EncryptedGroupSecrets = EncryptedGroupSecrets(newMember: Bytes, encryptedGroupSecrets: HpkeCiphertext)

  datatype Welcome = Welcome(cipherSuite: SuiteId, secrets: seq<EncryptedGroupSecrets>, encryptedGroupInfo: Bytes)

  /** By default there is no path secret and no PSK. */
  datatype GroupSecrets = GroupSecrets(
    joinerSecret: Bytes,
    pathSecret: Option<Bytes> := None,
    preSharedKeyIds: seq<PreSharedKeyId> := [])

  datatype WelcomeJoinError = WelcomeNotForYou | DecryptFailed(cause: CryptoError) | DecodeFailed

  datatype HpkeEncryptError = HpkeEncryptFailed(cause: CryptoError)

  // ---- wire layout ----

  function EncodePskItems(ids: seq<PreSharedKeyId>): Wire
  {
    if ids == [] then [] else Psks.Encode(ids[0]) + EncodePskItems(ids[1..])
  }

  function ReadPskItems(w: Wire, count: nat): (r: Option<(seq<PreSharedKeyId>, Wire)>)
    ensures r.Some? ==> |r.value.0| == count && |r.value.1| <= |w|
    decreases count
  {
    if count == 0 then Some(([], w))
    else
      match Psks.Read(w)
      case None => None
      case Some((id, w1)) =>
        match ReadPskItems(w1, count - 1)
        case None => None
        case Some((ids, w2)) => Some(([id] + ids, w2))
  }

  lemma {:induction false} ReadPskItemsRoundTrip(ids: seq<PreSharedKeyId>, rest: Wire)
    ensures ReadPskItems(EncodePskItems(ids) + rest, |ids|) == Some((ids, rest))
  {
    if ids == [] {
      assert EncodePskItems(ids) + rest == rest;
    } else {
      var tail := EncodePskItems(ids[1..]) + rest;
      assert EncodePskItems(ids) + rest == Psks.Encode(ids[0]) + tail;
      Psks.ReadRoundTrip(ids[0], tail);
      ReadPskItemsRoundTrip(ids[1..], rest);
      assert [ids[0]] + ids[1..] == ids;
    }
  }

  /** `GroupSecrets`: joiner secret, optional path secret, then the PSK ids as a vector. */
  function EncodeGroupSecrets(gs: GroupSecrets): Wire
  {
    [Octets(gs.joinerSecret)]
    + EncodeOptionalSecret(gs.pathSecret)
    + [Num(|gs.preSharedKeyIds|)] + EncodePskItems(gs.preSharedKeyIds)
  }

  /** `optional<Secret>`: a presence flag, then the secret when present. */
  function EncodeOptionalSecret(o: Option<Bytes>): Wire
  {
    match o
    case None => [Num(0)]
    case Some(p) => [Num(1), Octets(p)]
  }

  function ReadOptionalSecret(w: Wire): (r: Option<(Option<Bytes>, Wire)>)
    ensures r.Some? ==> |r.value.1| < |w|
  {
    match ReadNum(w, 2)
    case None => None
    case Some((present, w1)) =>
      if present == 0 then Some((None, w1))
      else
        match ReadOctets(w1)
        case None => None
        case Some((p, w2)) => Some((Some(p), w2))
  }

  lemma ReadOptionalSecretRoundTrip(o: Option<Bytes>, rest: Wire)
    ensures ReadOptionalSecret(EncodeOptionalSecret(o) + rest) == Some((o, rest))
  {
    var w := EncodeOptionalSecret(o) + rest;
    if o.Some? {
      assert w[1..] == [Octets(o.value)] + rest;
    }
  }

  function ReadGroupSecrets(w: Wire): Option<(GroupSecrets, Wire)>
  {
    match ReadOctets(w)
    case None => None
    case Some((joinerSecret, w1)) =>
      match ReadOptionalSecret(w1)
      case None => None
      case Some((pathSecret, w2)) =>
        match ReadNum(w2, U32_LIMIT)
        case None => None
        case Some((count, w3)) =>
          match ReadPskItems(w3, count)
          case None => None
          case Some((ids, w4)) => Some((GroupSecrets(joinerSecret, pathSecret, ids), w4))
  }

  /** Decoding the bytes of a whole message: nothing may be left over. */
  function DecodeGroupSecrets(w: Wire): Option<GroupSecrets>
  {
    match ReadGroupSecrets(w)
    case Some((gs, rest)) => if rest == [] then Some(gs) else None
    case None => None
  }

  lemma ReadGroupSecretsRoundTrip(gs: GroupSecrets, rest: Wire)
    requires |gs.preSharedKeyIds| < U32_LIMIT
    ensures ReadGroupSecrets(EncodeGroupSecrets(gs) + rest) == Some((gs, rest))
  {
    var items := EncodePskItems(gs.preSharedKeyIds) + rest;
    var tail := [Num(|gs.preSharedKeyIds|)] + items;
    var w1 := EncodeOptionalSecret(gs.pathSecret) + tail;
    var w := EncodeGroupSecrets(gs) + rest;
    assert w == [Octets(gs.joinerSecret)] + w1;
    assert ReadOctets(w) == Some((gs.joinerSecret, w1)) by {
      assert w[1..] == w1;
    }
    ReadOptionalSecretRoundTrip(gs.pathSecret, tail);
    assert ReadNum(tail, U32_LIMIT) == Some((|gs.preSharedKeyIds|, items)) by {
      assert tail[1..] == items;
    }
    ReadPskItemsRoundTrip(gs.preSharedKeyIds, rest);
  }

  lemma DecodeGroupSecretsRoundTrip(gs: GroupSecrets)
    requires |gs.preSharedKeyIds| < U32_LIMIT
    ensures DecodeGroupSecrets(EncodeGroupSecrets(gs)) == Some(gs)
  {
    ReadGroupSecretsRoundTrip(gs, []);
    assert EncodeGroupSecrets(gs) + [] == EncodeGroupSecrets(gs);
  }

  function EncodeEncryptedGroupSecrets(e: EncryptedGroupSecrets): Wire
  {
    [Octets(e.newMember), Octets(e.encryptedGroupSecrets.kemOutput), Octets(e.encryptedGroupSecrets.ciphertext)]
  }

  function EncodeSecretsItems(es: seq<EncryptedGroupSecrets>): Wire
  {
    if es == [] then [] else EncodeEncryptedGroupSecrets(es[0]) + EncodeSecretsItems(es[1..])
  }

  function ReadSecretsItems(w: Wire, count: nat): (r: Option<(seq<EncryptedGroupSecrets>, Wire)>)
    ensures r.Some? ==> |r.value.1| <= |w|
    decreases count
  {
    if count == 0 then Some(([], w))
    else if |w| < 3 || !w[0].Octets? || !w[1].Octets? || !w[2].Octets? then None
    else
      match ReadSecretsItems(w[3..], count - 1)
      case None => None
      case Some((es, w1)) =>
        Some(([EncryptedGroupSecrets(w[0].bytes, HpkeCiphertext(w[1].bytes, w[2].bytes))] + es, w1))
  }

  lemma {:induction false} ReadSecretsItemsRoundTrip(es: seq<EncryptedGroupSecrets>, rest: Wire)
    ensures ReadSecretsItems(EncodeSecretsItems(es) + rest, |es|) == Some((es, rest))
  {
    if es == [] {
      assert EncodeSecretsItems(es) + rest == rest;
    } else {
      var w := EncodeSecretsItems(es) + rest;
      assert w == EncodeEncryptedGroupSecrets(es[0]) + (EncodeSecretsItems(es[1..]) + rest);
      assert w[3..] == EncodeSecretsItems(es[1..]) + rest;
      ReadSecretsItemsRoundTrip(es[1..], rest);
      assert EncryptedGroupSecrets(w[0].bytes, HpkeCiphertext(w[1].bytes, w[2].bytes)) == es[0];
      assert [es[0]] + es[1..] == es;
    }
  }

  /** `Welcome`: cipher suite, the recipients' entries as a vector, the encrypted GroupInfo. */
  function EncodeWelcome(wm: Welcome): Wire
  {
    [Num(wm.cipherSuite), Num(|wm.secrets|)] + EncodeSecretsItems(wm.secrets) + [Octets(wm.encryptedGroupInfo)]
  }

  function ReadWelcome(w: Wire): Option<(Welcome, Wire)>
  {
    match ReadNum(w, U16_LIMIT)
    case None => None
    case Some((suite, w1)) =>
      match ReadNum(w1, U32_LIMIT)
      case None => None
      case Some((count, w2)) =>
        match ReadSecretsItems(w2, count)
        case None => None
        case Some((secrets, w3)) =>
          match ReadOctets(w3)
          case None => None
          case Some((egi, w4)) => Some((Welcome(suite, secrets, egi), w4))
  }

  lemma ReadWelcomeRoundTrip(wm: Welcome, rest: Wire)
    requires |wm.secrets| < U32_LIMIT
    ensures ReadWelcome(EncodeWelcome(wm) + rest) == Some((wm, rest))
  {
    var tail := [Octets(wm.encryptedGroupInfo)] + rest;
    var w := EncodeWelcome(wm) + rest;
    assert w == [Num(wm.cipherSuite), Num(|wm.secrets|)] + (EncodeSecretsItems(wm.secrets) + tail);
    assert w[1..][1..] == EncodeSecretsItems(wm.secrets) + tail;
    ReadSecretsItemsRoundTrip(wm.secrets, tail);
  }

  // ---- recipients ----

  /** `secrets.find { it.newMember == ref }`: the position of the first entry for `ref`. */
  function FindRecipient(secrets: seq<EncryptedGroupSecrets>, ref: Bytes): (r: Option<nat>)
    ensures r.None? <==> forall i :: 0 <= i < |secrets| ==> secrets[i].newMember != ref
    ensures r.Some? ==> r.value < |secrets| && secrets[r.value].newMember == ref
    ensures r.Some? ==> forall i :: 0 <= i < r.value ==> secrets[i].newMember != ref
  {
    if secrets == [] then None
    else if secrets[0].newMember == ref then Some(0)
    else match FindRecipient(secrets[1..], ref)
      case None => None
      case Some(i) => Some(i + 1)
  }

  /** Entry `i` is the first entry of `secrets` that names `ref`. */
  predicate FirstEntryFor(secrets: seq<EncryptedGroupSecrets>, ref: Bytes, i: nat)
  {
    && i < |secrets| && secrets[i].newMember == ref
    && forall j :: 0 <= j < i ==> secrets[j].newMember != ref
  }

  /**
   * `r` is the outcome of opening `entry` with `initKeyPair`, label "Welcome"
   * and the encrypted GroupInfo as context: a failed open is `DecryptFailed`
   * with its error, a plaintext that is not a `GroupSecrets` encoding is
   * `DecodeFailed`, and otherwise `r` succeeds with the decoded secrets.
   */
  predicate OpenedEntry(wm: Welcome, c: Crypto, initKeyPair: HpkeKeyPair, entry: EncryptedGroupSecrets,
                        r: Result<GroupSecrets, WelcomeJoinError>)
  {
    var decrypted := c.decryptWithLabel(wm.cipherSuite, initKeyPair, WELCOME_LABEL, wm.encryptedGroupInfo,
                                        entry.encryptedGroupSecrets);
    && (decrypted.Failure? ==> r == Failure(DecryptFailed(decrypted.error)))
    && (decrypted.Success? && DecodeGroupSecrets(decrypted.value).None? ==> r == Failure(DecodeFailed))
    && (r.Success? <==> decrypted.Success? && DecodeGroupSecrets(decrypted.value).Some?)
    && (r.Success? ==> DecodeGroupSecrets(decrypted.value) == Some(r.value))
  }

  /**
   * `decryptGroupSecrets(ref, initKeyPair)`: opens the caller's entry with
   * label "Welcome" and the encrypted GroupInfo as context, then decodes it.
   * Without an entry for the caller it fails before any decryption.
   */
  function DecryptGroupSecrets(wm: Welcome, c: Crypto, keyPackageRef: Bytes, initKeyPair: HpkeKeyPair)
    : (r: Result<GroupSecrets, WelcomeJoinError>)
    ensures r == Failure(WelcomeNotForYou) <==>
      forall i :: 0 <= i < |wm.secrets| ==> wm.secrets[i].newMember != keyPackageRef
    ensures forall i: nat :: FirstEntryFor(wm.secrets, keyPackageRef, i) ==>
      OpenedEntry(wm, c, initKeyPair, wm.secrets[i], r)
  {
    match FindRecipient(wm.secrets, keyPackageRef)
    case None => Failure(WelcomeNotForYou)
    case Some(i) =>
      match c.decryptWithLabel(wm.cipherSuite, initKeyPair, WELCOME_LABEL, wm.encryptedGroupInfo,
                               wm.secrets[i].encryptedGroupSecrets)
      case Failure(e) => Failure(DecryptFailed(e))
      case Success(plaintext) =>
        match DecodeGroupSecrets(plaintext)
        case None => Failure(DecodeFailed)
        case Some(gs) => Success(gs)
  }

  /**
   * The `KeyPackage.Private` overload: looks up the key package's reference
   * and opens that entry with the package's init key pair.
   */
  function DecryptGroupSecretsFor(wm: Welcome, c: Crypto, keyPackage: KeyPackagePrivate)
    : (r: Result<GroupSecrets, WelcomeJoinError>)
    ensures r == Failure(WelcomeNotForYou) <==>
      forall i :: 0 <= i < |wm.secrets| ==> wm.secrets[i].newMember != keyPackage.ref
    ensures forall i: nat :: FirstEntryFor(wm.secrets, keyPackage.ref, i) ==>
      OpenedEntry(wm, c, keyPackage.initKeyPair, wm.secrets[i], r)
  {
    DecryptGroupSecrets(wm, c, keyPackage.ref, keyPackage.initKeyPair)
  }

  /**
   * `GroupSecrets.encrypt`: an entry for the key package's reference, sealed
   * to its init key with label "Welcome" and the encrypted GroupInfo as context.
   */
  function Encrypt(gs: GroupSecrets, c: Crypto, suite: SuiteId, forKeyPackage: KeyPackage, encryptedGroupInfo: Bytes)
    : (r: Result<EncryptedGroupSecrets, HpkeEncryptError>)
    ensures var sealed := c.encryptWithLabel(suite, forKeyPackage.initKey, WELCOME_LABEL, encryptedGroupInfo,
                                             EncodeGroupSecrets(gs));
      && (r.Success? <==> sealed.Success?)
      && (r.Failure? ==> r.error == HpkeEncryptFailed(sealed.error))
      && (r.Success? ==> r.value == EncryptedGroupSecrets(forKeyPackage.ref, sealed.value))
  {
    match c.encryptWithLabel(suite, forKeyPackage.initKey, WELCOME_LABEL, encryptedGroupInfo, EncodeGroupSecrets(gs))
    case Failure(e) => Failure(HpkeEncryptFailed(e))
    case Success(ct) => Success(EncryptedGroupSecrets(forKeyPackage.ref, ct))
  }

  /**
   * Encrypting for a key package and decrypting with that package's private
   * half returns the same `GroupSecrets`, whatever other entries the Welcome
   * holds after it, provided no earlier entry names the same reference.
   */
  lemma GroupSecretsRoundTrip(gs: GroupSecrets, c: Crypto, suite: SuiteId, recipient: KeyPackagePrivate,
                              encryptedGroupInfo: Bytes, before: seq<EncryptedGroupSecrets>, after: seq<EncryptedGroupSecrets>)
    requires HpkeRoundTrip(c)
    requires MatchingHpkeKeyPair(c, suite, recipient.initKeyPair)
    requires |gs.preSharedKeyIds| < U32_LIMIT
    requires Encrypt(gs, c, suite, KeyPackage(recipient.ref, recipient.initKeyPair.publicKey), encryptedGroupInfo).Success?
    requires forall i :: 0 <= i < |before| ==> before[i].newMember != recipient.ref
    ensures var entry := Encrypt(gs, c, suite, KeyPackage(recipient.ref, recipient.initKeyPair.publicKey), encryptedGroupInfo).value;
      DecryptGroupSecretsFor(Welcome(suite, before + [entry] + after, encryptedGroupInfo), c, recipient) == Success(gs)
  {
    var kp := recipient.initKeyPair;
    var entry := Encrypt(gs, c, suite, KeyPackage(recipient.ref, kp.publicKey), encryptedGroupInfo).value;
    var secrets := before + [entry] + after;
    assert secrets[|before|] == entry;
    forall i | 0 <= i < |before| ensures secrets[i].newMember != recipient.ref {
      assert secrets[i] == before[i];
    }
    assert FindRecipient(secrets, recipient.ref) == Some(|before|);
    assert c.encryptWithLabel(suite, kp.publicKey, WELCOME_LABEL, encryptedGroupInfo, EncodeGroupSecrets(gs)).Success?;
    DecodeGroupSecretsRoundTrip(gs);
  }

  // ---- the encrypted GroupInfo ----

  /** The welcome secret: `DeriveSecret(Extract(joiner_secret, psk_secret), "welcome")`. */
  function WelcomeSecret(c: Crypto, suite: SuiteId, joinerSecret: Bytes, pskSecret: Bytes): Bytes
  {
    c.deriveSecret(suite, c.extract(suite, joinerSecret, pskSecret), "welcome")
  }

  function WelcomeNonce(c: Crypto, suite: SuiteId, joinerSecret: Bytes, pskSecret: Bytes): Bytes
  {
    c.expandWithLabel(suite, WelcomeSecret(c, suite, joinerSecret, pskSecret), "nonce", [], c.nonceLen(suite))
  }

  function WelcomeKey(c: Crypto, suite: SuiteId, joinerSecret: Bytes, pskSecret: Bytes): Bytes
  {
    c.expandWithLabel(suite, WelcomeSecret(c, suite, joinerSecret, pskSecret), "key", [], c.keyLen(suite))
  }

  function DecodeGroupInfo(w: Wire): Option<GroupInfo>
  {
    match GroupInfos.Read(w)
    case Some((gi, rest)) => if rest == [] then Some(gi) else None
    case None => None
  }

  /**
   * `decryptGroupInfo(joinerSecret, pskSecret)`: derives the welcome key and
   * nonce, decrypts the shared ciphertext with empty associated data and
   * decodes a GroupInfo.
   */
  function DecryptGroupInfo(wm: Welcome, c: Crypto, joinerSecret: Bytes, pskSecret: Bytes)
    : (r: Result<GroupInfo, WelcomeJoinError>)
    ensures r.Failure? ==> r.error != WelcomeNotForYou
    ensures var decrypted := c.decryptAead(wm.cipherSuite, WelcomeKey(c, wm.cipherSuite, joinerSecret, pskSecret),
                                        WelcomeNonce(c, wm.cipherSuite, joinerSecret, pskSecret), [], wm.encryptedGroupInfo);
      && (decrypted.Failure? ==> r == Failure(DecryptFailed(decrypted.error)))
      && (decrypted.Success? && DecodeGroupInfo(decrypted.value).None? ==> r == Failure(DecodeFailed))
      && (r.Success? <==> decrypted.Success? && DecodeGroupInfo(decrypted.value).Some?)
      && (r.Success? ==> DecodeGroupInfo(decrypted.value) == Some(r.value))
  {
    var suite := wm.cipherSuite;
    var joinerExtracted := c.extract(suite, joinerSecret, pskSecret);
    var welcomeSecret := c.deriveSecret(suite, joinerExtracted, "welcome");
    var nonce := c.expandWithLabel(suite, welcomeSecret, "nonce", [], c.nonceLen(suite));
    var key := c.expandWithLabel(suite, welcomeSecret, "key", [], c.keyLen(suite));
    match c.decryptAead(suite, key, nonce, [], wm.encryptedGroupInfo)
    case Failure(e) => Failure(DecryptFailed(e))
    case Success(plaintext) =>
      match DecodeGroupInfo(plaintext)
      case None => Failure(DecodeFailed)
      case Some(gi) => Success(gi)
  }

  /**
   * A GroupInfo encrypted under the welcome key and nonce derived from the same
   * joiner and PSK secrets is recovered by `decryptGroupInfo`. Its context's
   * interim transcript hash is not on the wire, so it must be empty to come back equal.
   */
  lemma GroupInfoRoundTrip(c: Crypto, suite: SuiteId, joinerSecret: Bytes, pskSecret: Bytes, gi: GroupInfo,
                           secrets: seq<EncryptedGroupSecrets>)
    requires AeadRoundTrip(c)
    requires |gi.groupContext.extensions| < U32_LIMIT && |gi.extensions| < U32_LIMIT
    requires gi.groupContext.interimTranscriptHash == []
    ensures var ct := c.encryptAead(suite, WelcomeKey(c, suite, joinerSecret, pskSecret),
                                    WelcomeNonce(c, suite, joinerSecret, pskSecret), [], GroupInfos.Encode(gi));
      DecryptGroupInfo(Welcome(suite, secrets, ct), c, joinerSecret, pskSecret) == Success(gi)
  {
    GroupInfos.ReadRoundTrip(gi, []);
    assert GroupInfos.Encode(gi) + [] == GroupInfos.Encode(gi);
    assert gi.(groupContext := gi.groupContext.(interimTranscriptHash := [])) == gi;
  }
}
