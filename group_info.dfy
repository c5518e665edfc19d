/**
 * GroupInfo (RFC 9420 section 12.4.3): the signed announcement of a group's
 * state. The signature covers the to-be-signed view `Tbs`, which is the
 * GroupInfo without its signature, under the label "GroupInfoTBS".
 */
module GroupInfos {
  import opened Codec
  import opened Crypto
  import opened Tree
  import GroupContexts

  type GroupContext = GroupContexts.GroupContext

  const GROUP_INFO_TBS_LABEL: string := "GroupInfoTBS"

  datatype GroupInfo = GroupInfo(
    groupContext: GroupContext,
    extensions: seq<Extension>,
    confirmationTag: Bytes,
    signer: U32,
    signature: Bytes)

  datatype Tbs = Tbs(
    groupContext: GroupContext,
    extensions: seq<Extension>,
    confirmationTag: Bytes,
    signer: U32)

  datatype GroupInfoError = SigningFailed(cause: CryptoError)

  datatype VerifySignatureError = SignatureInvalid

  function TbsOf(gi: GroupInfo): Tbs
  {
    Tbs(gi.groupContext, gi.extensions, gi.confirmationTag, gi.signer)
  }

  function EncodeTbs(t: Tbs): Wire
  {
    GroupContexts.Encode(t.groupContext) + EncodeExtensions(t.extensions)
    + [Octets(t.confirmationTag), Num(t.signer)]
  }

  function Encode(gi: GroupInfo): Wire
  {
    GroupContexts.Encode(gi.groupContext) + EncodeExtensions(gi.extensions)
    + [Octets(gi.confirmationTag), Num(gi.signer), Octets(gi.signature)]
  }

  /** The signed view is the GroupInfo's field list without the trailing signature. */
  lemma EncodeIsTbsThenSignature(gi: GroupInfo)
    ensures Encode(gi) == EncodeTbs(TbsOf(gi)) + [Octets(gi.signature)]
  {
  }

  function Read(w: Wire): (r: Option<(GroupInfo, Wire)>)
    ensures r.Some? ==> |r.value.1| < |w|
  {
    match GroupContexts.Read(w)
    case None => None
    case Some((ctx, w1)) =>
      match ReadExtensions(w1)
      case None => None
      case Some((extensions, w2)) =>
        if |w2| < 3 || !w2[0].Octets? || !w2[1].Num? || w2[1].n >= U32_LIMIT || !w2[2].Octets? then None
        else Some((GroupInfo(ctx, extensions, w2[0].bytes, w2[1].n, w2[2].bytes), w2[3..]))
  }

  /** Decoding returns the GroupInfo, except that its context's interim hash (never on the wire) is empty. */
  lemma ReadRoundTrip(gi: GroupInfo, rest: Wire)
    requires |gi.groupContext.extensions| < U32_LIMIT && |gi.extensions| < U32_LIMIT
    ensures Read(Encode(gi) + rest)
         == Some((gi.(groupContext := gi.groupContext.(interimTranscriptHash := [])), rest))
  {
    var tail := [Octets(gi.confirmationTag), Num(gi.signer), Octets(gi.signature)] + rest;
    var w := Encode(gi) + rest;
    assert w == GroupContexts.Encode(gi.groupContext) + (EncodeExtensions(gi.extensions) + tail);
    GroupContexts.ReadRoundTrip(gi.groupContext, EncodeExtensions(gi.extensions) + tail);
    ReadExtensionsRoundTrip(gi.extensions, tail);
    assert tail[3..] == rest;
  }

  /**
   * `create`: stores the context, extensions, confirmation tag and signer as
   * given, and signs their `Tbs` with the signer's private key.
   */
  function Create(c: Crypto, groupContext: GroupContext, confirmationTag: Bytes, extensions: seq<Extension>,
                  ownLeafIndex: U32, signaturePrivateKey: Bytes): (r: Result<GroupInfo, GroupInfoError>)
    ensures var signed := c.signWithLabel(groupContext.cipherSuite, signaturePrivateKey, GROUP_INFO_TBS_LABEL,
                                          EncodeTbs(Tbs(groupContext, extensions, confirmationTag, ownLeafIndex)));
      && (r.Success? <==> signed.Success?)
      && (r.Failure? ==> r.error == SigningFailed(signed.error))
      && (r.Success? ==> r.value == GroupInfo(groupContext, extensions, confirmationTag, ownLeafIndex, signed.value))
  {
    match c.signWithLabel(groupContext.cipherSuite, signaturePrivateKey, GROUP_INFO_TBS_LABEL,
                          EncodeTbs(Tbs(groupContext, extensions, confirmationTag, ownLeafIndex)))
    case Failure(e) => Failure(SigningFailed(e))
    case Success(signature) => Success(GroupInfo(groupContext, extensions, confirmationTag, ownLeafIndex, signature))
  }

  /**
   * `verifySignature(tree)`: verifies the signature over the `Tbs` with the
   * signature key of the signer's leaf in the given tree; on success the
   * GroupInfo itself is returned.
   */
  function VerifySignature(gi: GroupInfo, c: Crypto, tree: RatchetTree): (r: Result<GroupInfo, VerifySignatureError>)
    requires tree.IsNonBlankLeaf(gi.signer)
    ensures r.Success? ==> r.value == gi
    ensures r.Success? <==>
      c.verifyWithLabel(gi.groupContext.cipherSuite, tree.LeafNodeAt(gi.signer).signatureKey,
                        GROUP_INFO_TBS_LABEL, EncodeTbs(TbsOf(gi)), gi.signature)
  {
    var verificationKey := tree.LeafNodeAt(gi.signer).signatureKey;
    if c.verifyWithLabel(gi.groupContext.cipherSuite, verificationKey, GROUP_INFO_TBS_LABEL,
                         EncodeTbs(Tbs(gi.groupContext, gi.extensions, gi.confirmationTag, gi.signer)), gi.signature)
    then Success(gi)
    else Failure(SignatureInvalid)
  }

  /**
   * A GroupInfo made by `create` verifies against any tree whose signer leaf
   * holds the public key of the signing key, given correct signatures.
   */
  lemma CreateThenVerify(c: Crypto, groupContext: GroupContext, confirmationTag: Bytes, extensions: seq<Extension>,
                         ownLeafIndex: U32, signaturePrivateKey: Bytes, tree: RatchetTree)
    requires SignatureCorrect(c)
    requires Create(c, groupContext, confirmationTag, extensions, ownLeafIndex, signaturePrivateKey).Success?
    requires tree.IsNonBlankLeaf(ownLeafIndex)
    requires tree.LeafNodeAt(ownLeafIndex).signatureKey == c.signaturePublicKey(groupContext.cipherSuite, signaturePrivateKey)
    ensures var gi := Create(c, groupContext, confirmationTag, extensions, ownLeafIndex, signaturePrivateKey).value;
      VerifySignature(gi, c, tree) == Success(gi)
  {
    var content := EncodeTbs(Tbs(groupContext, extensions, confirmationTag, ownLeafIndex));
    assert c.signWithLabel(groupContext.cipherSuite, signaturePrivateKey, GROUP_INFO_TBS_LABEL, content).Success?;
  }
}
