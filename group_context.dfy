/**
 * The group context of RFC 9420 section 8.1: an immutable per-epoch record
 * binding the tree hash and the transcript hashes of section 8.2. Every
 * operation builds a fresh record from an existing one.
 */
module GroupContexts {
  import opened Codec
  import opened Crypto
  import opened Tree

  /** Only MLS 1.0 (wire value 1) is defined; 0 is reserved. */
  datatype ProtocolVersion = MLS_1_0

  function VersionOrd(v: ProtocolVersion): U16
  {
    1
  }

  /** A group id here is a 16-byte sortable unique identifier. */
  type Ulid = b: Bytes | |b| == 16 witness seq(16, _ => 0)

  datatype GroupContext = GroupContext(
    protocolVersion: ProtocolVersion,
    cipherSuite: SuiteId,
    groupId: Ulid,
    epoch: U64,
    treeHash: Bytes,
    confirmedTranscriptHash: Bytes,
    extensions: seq<Extension>,
    interimTranscriptHash: Bytes := [])

  /** The group's fixed parameters and its local retention policy. */
  datatype GroupSettings = GroupSettings(
    protocolVersion: ProtocolVersion,
    cipherSuite: SuiteId,
    groupId: Ulid,
    keepPastEpochs: U32,
    public: bool)

  /** The part of a persisted epoch a context is rebuilt from. */
  datatype GroupEpoch = GroupEpoch(
    epoch: U64,
    tree: RatchetTree,
    confirmedTranscriptHash: Bytes,
    interimTranscriptHash: Bytes,
    extensions: seq<Extension>)

  /** `settings()`; by default five past epochs are kept and the group is not public. */
  function Settings(ctx: GroupContext, keepPastEpochs: U32 := 5, public: bool := false): (r: GroupSettings)
    ensures r.protocolVersion == ctx.protocolVersion && r.cipherSuite == ctx.cipherSuite && r.groupId == ctx.groupId
    ensures r.keepPastEpochs == keepPastEpochs && r.public == public
  {
    GroupSettings(ctx.protocolVersion, ctx.cipherSuite, ctx.groupId, keepPastEpochs, public)
  }

  /** The raw bytes `prefix` followed by the encoding `w`: an empty prefix adds nothing. */
  function Prepend(prefix: Bytes, w: Wire): Wire
  {
    if prefix == [] then w else [Raw(prefix)] + w
  }

  /** `InterimTranscriptHashInput`: the confirmation tag as `opaque<V>`. */
  function EncodeInterimInput(confirmationTag: Bytes): Wire
  {
    [Octets(confirmationTag)]
  }

  /** The interim transcript hash that follows a confirmed transcript hash (section 8.2). */
  function InterimHash(c: Crypto, suite: SuiteId, confirmed: Bytes, confirmationTag: Bytes): Bytes
  {
    c.hash(suite, Prepend(confirmed, EncodeInterimInput(confirmationTag)))
  }

  /**
   * `provisional(tree)`: the next epoch's context. The epoch is a ULong and
   * wraps modulo 2^64; the tree hash is recomputed; everything else is kept.
   */
  function Provisional(ctx: GroupContext, c: Crypto, tree: RatchetTree): (r: GroupContext)
    ensures r.epoch == (ctx.epoch + 1) % U64_LIMIT
    ensures ctx.epoch + 1 < U64_LIMIT ==> r.epoch == ctx.epoch + 1
    ensures r.treeHash == c.treeHash(ctx.cipherSuite, tree)
    ensures r == ctx.(epoch := r.epoch, treeHash := r.treeHash)
  {
    ctx.(epoch := (ctx.epoch + 1) % U64_LIMIT, treeHash := c.treeHash(ctx.cipherSuite, tree))
  }

  /** `withExtensions`: replaces the extensions and nothing else. */
  function WithExtensions(ctx: GroupContext, extensions: seq<Extension>): (r: GroupContext)
    ensures r.extensions == extensions
    ensures r.(extensions := ctx.extensions) == ctx
  {
    ctx.(extensions := extensions)
  }

  /**
   * `withInterimTranscriptHash(tag)`: the interim hash becomes
   * `hash(confirmedTranscriptHash || InterimTranscriptHashInput(tag))`.
   */
  function WithInterimTranscriptHash(ctx: GroupContext, c: Crypto, confirmationTag: Bytes): (r: GroupContext)
    ensures r.interimTranscriptHash == InterimHash(c, ctx.cipherSuite, ctx.confirmedTranscriptHash, confirmationTag)
    ensures r.(interimTranscriptHash := ctx.interimTranscriptHash) == ctx
  {
    ctx.(interimTranscriptHash := c.hash(ctx.cipherSuite, Prepend(ctx.confirmedTranscriptHash, EncodeInterimInput(confirmationTag))))
  }

  /**
   * `new`: epoch 0 of a fresh group, with a caller-supplied fresh group id,
   * an empty confirmed transcript hash and the interim hash seeded from a MAC
   * of the empty string under the initial confirmation key.
   */
  function New(c: Crypto, suite: SuiteId, confirmationKey: Bytes, tree: RatchetTree, extensions: seq<Extension>, freshGroupId: Ulid): (r: GroupContext)
    ensures r.protocolVersion == MLS_1_0 && r.cipherSuite == suite && r.groupId == freshGroupId
    ensures r.epoch == 0 && r.confirmedTranscriptHash == [] && r.extensions == extensions
    ensures r.treeHash == c.treeHash(suite, tree)
    ensures r.interimTranscriptHash == c.hash(suite, EncodeInterimInput(c.mac(suite, confirmationKey, [])))
  {
    GroupContext(
      MLS_1_0, suite, freshGroupId, 0, c.treeHash(suite, tree), [], extensions,
      c.hash(suite, EncodeInterimInput(c.mac(suite, confirmationKey, []))))
  }

  /** The seeded interim hash is the transcript step from an empty confirmed hash with the initial tag. */
  lemma NewSeedsTranscript(c: Crypto, suite: SuiteId, confirmationKey: Bytes, tree: RatchetTree, extensions: seq<Extension>, freshGroupId: Ulid)
    ensures var ctx := New(c, suite, confirmationKey, tree, extensions, freshGroupId);
      ctx == WithInterimTranscriptHash(ctx, c, c.mac(suite, confirmationKey, []))
  {
  }

  /** `create`: rebuilds a context from the settings and a persisted epoch, recomputing the tree hash. */
  function Create(c: Crypto, settings: GroupSettings, epoch: GroupEpoch): (r: GroupContext)
    ensures r.protocolVersion == settings.protocolVersion && r.cipherSuite == settings.cipherSuite
    ensures r.groupId == settings.groupId && r.epoch == epoch.epoch
    ensures r.treeHash == c.treeHash(settings.cipherSuite, epoch.tree)
    ensures r.confirmedTranscriptHash == epoch.confirmedTranscriptHash
    ensures r.interimTranscriptHash == epoch.interimTranscriptHash && r.extensions == epoch.extensions
  {
    GroupContext(
      settings.protocolVersion, settings.cipherSuite, settings.groupId, epoch.epoch,
      c.treeHash(settings.cipherSuite, epoch.tree), epoch.confirmedTranscriptHash,
      epoch.extensions, epoch.interimTranscriptHash)
  }

  /**
   * A context persisted as its settings and epoch is rebuilt exactly, provided
   * the epoch's tree still hashes to the stored tree hash.
   */
  lemma CreateFromSettingsRestores(c: Crypto, ctx: GroupContext, keepPastEpochs: U32, public: bool, epoch: GroupEpoch)
    requires epoch.epoch == ctx.epoch && epoch.extensions == ctx.extensions
    requires epoch.confirmedTranscriptHash == ctx.confirmedTranscriptHash
    requires epoch.interimTranscriptHash == ctx.interimTranscriptHash
    requires c.treeHash(ctx.cipherSuite, epoch.tree) == ctx.treeHash
    ensures Create(c, Settings(ctx, keepPastEpochs, public), epoch) == ctx
  {
  }

  /** The `GroupContext` struct: seven fields, without the interim transcript hash. */
  function Encode(ctx: GroupContext): Wire
  {
    [Num(VersionOrd(ctx.protocolVersion)), Num(ctx.cipherSuite), Octets(ctx.groupId), Num(ctx.epoch),
     Octets(ctx.treeHash), Octets(ctx.confirmedTranscriptHash)]
    + EncodeExtensions(ctx.extensions)
  }

  function Read(w: Wire): (r: Option<(GroupContext, Wire)>)
    ensures r.Some? ==> |r.value.1| < |w|
  {
    if |w| < 6 || w[0] != Num(1) || !w[1].Num? || w[1].n >= U16_LIMIT
       || !w[2].Octets? || |w[2].bytes| != 16 || !w[3].Num? || w[3].n >= U64_LIMIT
       || !w[4].Octets? || !w[5].Octets?
    then None
    else
      match ReadExtensions(w[6..])
      case None => None
      case Some((extensions, rest)) =>
        Some((GroupContext(MLS_1_0, w[1].n, w[2].bytes, w[3].n, w[4].bytes, w[5].bytes, extensions), rest))
  }

  /** Decoding gives the context back with an empty interim hash, which the wire format omits. */
  lemma ReadRoundTrip(ctx: GroupContext, rest: Wire)
    requires |ctx.extensions| < U32_LIMIT
    ensures Read(Encode(ctx) + rest) == Some((ctx.(interimTranscriptHash := []), rest))
  {
    var w := Encode(ctx) + rest;
    assert w[0] == Num(1) && w[1] == Num(ctx.cipherSuite) && w[2] == Octets(ctx.groupId);
    assert w[3] == Num(ctx.epoch) && w[4] == Octets(ctx.treeHash) && w[5] == Octets(ctx.confirmedTranscriptHash);
    assert w[6..] == EncodeExtensions(ctx.extensions) + rest;
    ReadExtensionsRoundTrip(ctx.extensions, rest);
    assert GroupContext(MLS_1_0, w[1].n, w[2].bytes, w[3].n, w[4].bytes, w[5].bytes, ctx.extensions)
        == ctx.(interimTranscriptHash := []);
  }

  /** Contexts that differ only in their interim transcript hash encode identically. */
  lemma EncodeIgnoresInterim(ctx: GroupContext, interim: Bytes)
    ensures Encode(ctx.(interimTranscriptHash := interim)) == Encode(ctx)
  {
  }
}
