/**
 * Pre-shared key identifiers (RFC 9420 sections 8.4 and 8.6): the two-variant
 * `PreSharedKeyID`, its validation against the cipher suite and the current
 * flow, its wire layout, and the `PSKLabel` fed to the key schedule.
 */
module Psks {
  import opened Codec
  import opened Crypto

  /** `psktype`: 0 is reserved and never valid. */
  datatype PskType = External | Resumption

  function PskTypeOrd(t: PskType): U8
  {
    match t
    case External => 1
    case Resumption => 2
  }

  function PskTypeFromOrd(n: nat): (r: Option<PskType>)
    ensures r.Some? <==> n == 1 || n == 2
    ensures r.Some? ==> PskTypeOrd(r.value) == n
  {
    if n == 1 then Some(External) else if n == 2 then Some(Resumption) else None
  }

  /** `ResumptionPSKUsage`: 0 is reserved and never valid. */
  datatype ResumptionPskUsage = Application | ReInit | Branch

  function UsageOrd(u: ResumptionPskUsage): U8
  {
    match u
    case Application => 1
    case ReInit => 2
    case Branch => 3
  }

  function UsageFromOrd(n: nat): (r: Option<ResumptionPskUsage>)
    ensures r.Some? <==> 1 <= n <= 3
    ensures r.Some? ==> UsageOrd(r.value) == n
  {
    if n == 1 then Some(Application) else if n == 2 then Some(ReInit) else if n == 3 then Some(Branch) else None
  }

  /** The usages that only a protocol re-initialisation or branch may use. */
  const PROTOCOL_RESUMPTION: set<ResumptionPskUsage> := {ReInit, Branch}

  datatype PreSharedKeyId =
    | ExternalPskId(pskId: Bytes, pskNonce: Bytes)
    | ResumptionPskId(usage: ResumptionPskUsage, pskGroupId: Bytes, pskEpoch: U64, pskNonce: Bytes)
  {
    function PskType(): PskType
    {
      if ExternalPskId? then External else Resumption
    }
  }

  datatype PskError =
    | PskNotFound(id: PreSharedKeyId)
    | BadPskNonce(id: PreSharedKeyId, expected: nat, actual: nat)
    | InvalidPskUsage(id: PreSharedKeyId)

  /** Whether a resumption usage is admissible in the current flow (section 8.6). */
  predicate UsageAllowed(u: ResumptionPskUsage, inReInit: bool, inBranch: bool)
  {
    (u == ReInit ==> inReInit) && (u == Branch ==> inBranch)
  }

  /**
   * `validate`: the nonce must be as long as the suite's hash output (both
   * variants); a resumption id must also have a usage admissible in the flow.
   * The nonce check comes first. On success the id itself is returned.
   */
  function Validate(id: PreSharedKeyId, c: Crypto, suite: SuiteId, inReInit: bool, inBranch: bool): (r: Result<PreSharedKeyId, PskError>)
    ensures r.Success? ==> r.value == id
    ensures r.Success? <==>
      |id.pskNonce| == c.hashLen(suite) && (id.ResumptionPskId? ==> UsageAllowed(id.usage, inReInit, inBranch))
    ensures |id.pskNonce| != c.hashLen(suite) <==> r == Failure(BadPskNonce(id, c.hashLen(suite), |id.pskNonce|))
    ensures r.Failure? && r.error.InvalidPskUsage? ==>
      id.ResumptionPskId? && id.usage in PROTOCOL_RESUMPTION && r.error.id == id
  {
    if |id.pskNonce| != c.hashLen(suite) then
      Failure(BadPskNonce(id, c.hashLen(suite), |id.pskNonce|))
    else if id.ResumptionPskId? && id.usage == ReInit && !inReInit then
      Failure(InvalidPskUsage(id))
    else if id.ResumptionPskId? && id.usage == Branch && !inBranch then
      Failure(InvalidPskUsage(id))
    else
      Success(id)
  }

  /** An external id is validated on its nonce alone: the flow flags do not matter. */
  lemma ExternalValidateIgnoresFlow(id: PreSharedKeyId, c: Crypto, suite: SuiteId, r1: bool, b1: bool, r2: bool, b2: bool)
    requires id.ExternalPskId?
    ensures Validate(id, c, suite, r1, b1) == Validate(id, c, suite, r2, b2)
  {
  }

  /** An `Application` resumption id never fails on usage. */
  lemma ApplicationUsageNeverRejected(id: PreSharedKeyId, c: Crypto, suite: SuiteId, inReInit: bool, inBranch: bool)
    requires id.ResumptionPskId? && id.usage == Application
    ensures Validate(id, c, suite, inReInit, inBranch).Failure? ==>
      Validate(id, c, suite, inReInit, inBranch).error.BadPskNonce?
  {
  }

  /** `equals`: field-wise within a variant; ids of different variants are never equal. */
  function Equals(a: PreSharedKeyId, b: PreSharedKeyId): (r: bool)
    ensures r <==> a == b
  {
    match (a, b)
    case (ExternalPskId(i1, n1), ExternalPskId(i2, n2)) => i1 == i2 && n1 == n2
    case (ResumptionPskId(u1, g1, e1, n1), ResumptionPskId(u2, g2, e2, n2)) =>
      u1 == u2 && g1 == g2 && e1 == e2 && n1 == n2
    case _ => false
  }

  /**
   * `ResumptionPskId.reInit`: a re-init id for the suspended group's id and
   * epoch, with a fresh nonce of the suite's hash length (supplied by the caller).
   */
  function ReInitPsk(groupId: Bytes, epoch: U64, c: Crypto, suite: SuiteId, nonce: Bytes): (r: PreSharedKeyId)
    requires |nonce| == c.hashLen(suite)
    ensures r.ResumptionPskId? && r.usage == ReInit && r.pskGroupId == groupId && r.pskEpoch == epoch
    ensures forall inBranch :: Validate(r, c, suite, true, inBranch) == Success(r)
    ensures forall inBranch :: Validate(r, c, suite, false, inBranch) == Failure(InvalidPskUsage(r))
  {
    ResumptionPskId(ReInit, groupId, epoch, nonce)
  }

  /** `ResumptionPskId.branch`: a branch id for the active group's id and epoch. */
  function BranchPsk(groupId: Bytes, epoch: U64, c: Crypto, suite: SuiteId, nonce: Bytes): (r: PreSharedKeyId)
    requires |nonce| == c.hashLen(suite)
    ensures r.ResumptionPskId? && r.usage == Branch && r.pskGroupId == groupId && r.pskEpoch == epoch
    ensures forall inReInit :: Validate(r, c, suite, inReInit, true) == Success(r)
    ensures forall inReInit :: Validate(r, c, suite, inReInit, false) == Failure(InvalidPskUsage(r))
  {
    ResumptionPskId(Branch, groupId, epoch, nonce)
  }

  /** `PreSharedKeyID`: the `psktype` tag, then the variant's fields in declared order. */
  function Encode(id: PreSharedKeyId): Wire
  {
    match id
    case ExternalPskId(pskId, nonce) =>
      [Num(PskTypeOrd(External)), Octets(pskId), Octets(nonce)]
    case ResumptionPskId(usage, groupId, epoch, nonce) =>
      [Num(PskTypeOrd(Resumption)), Num(UsageOrd(usage)), Octets(groupId), Num(epoch), Octets(nonce)]
  }

  /** Reads a `PreSharedKeyID`, dispatching on the tag; reserved and unknown tags are rejected. */
  function Read(w: Wire): (r: Option<(PreSharedKeyId, Wire)>)
    ensures r.Some? ==> |r.value.1| < |w|
  {
    match ReadNum(w, 0x100)
    case None => None
    case Some((tag, w1)) =>
      match PskTypeFromOrd(tag)
      case None => None
      case Some(External) =>
        (match ReadOctets(w1)
         case None => None
         case Some((pskId, w2)) =>
           match ReadOctets(w2)
           case None => None
           case Some((nonce, w3)) => Some((ExternalPskId(pskId, nonce), w3)))
      case Some(Resumption) =>
        match ReadNum(w1, 0x100)
        case None => None
        case Some((u, w2)) =>
          match UsageFromOrd(u)
          case None => None
          case Some(usage) =>
            match ReadOctets(w2)
            case None => None
            case Some((groupId, w3)) =>
              match ReadNum(w3, U64_LIMIT)
              case None => None
              case Some((epoch, w4)) =>
                match ReadOctets(w4)
                case None => None
                case Some((nonce, w5)) => Some((ResumptionPskId(usage, groupId, epoch, nonce), w5))
  }

  /** Decoding an encoded id gives an equal id and leaves the rest of the input untouched. */
  lemma ReadRoundTrip(id: PreSharedKeyId, rest: Wire)
    ensures Read(Encode(id) + rest) == Some((id, rest))
  {
    var w := Encode(id) + rest;
    match id
    case ExternalPskId(pskId, nonce) =>
      assert w[1..][1..][1..] == rest;
    case ResumptionPskId(usage, groupId, epoch, nonce) =>
      assert w[1..][1..][1..][1..][1..] == rest;
  }

  /** `PSKLabel`: the id, its position and the number of PSKs (uint16 each). */
  datatype PskLabel = PskLabel(pskId: PreSharedKeyId, index: U16, count: U16)

  /** The `Int` constructor: `toUShort` keeps the low 16 bits of a 32-bit signed value. */
  function PskLabelOfInts(pskId: PreSharedKeyId, index: int, count: int): (r: PskLabel)
    requires -0x8000_0000 <= index < 0x8000_0000 && -0x8000_0000 <= count < 0x8000_0000
    ensures r.pskId == pskId
    ensures (r.index - index) % U16_LIMIT == 0 && (r.count - count) % U16_LIMIT == 0
    ensures 0 <= index < U16_LIMIT ==> r.index == index
    ensures 0 <= count < U16_LIMIT ==> r.count == count
  {
    PskLabel(pskId, index % U16_LIMIT, count % U16_LIMIT)
  }

  function EncodeLabel(l: PskLabel): Wire
  {
    Encode(l.pskId) + [Num(l.index), Num(l.count)]
  }

  function ReadLabel(w: Wire): Option<(PskLabel, Wire)>
  {
    match Read(w)
    case None => None
    case Some((id, w1)) =>
      match ReadNum(w1, U16_LIMIT)
      case None => None
      case Some((index, w2)) =>
        match ReadNum(w2, U16_LIMIT)
        case None => None
        case Some((count, w3)) => Some((PskLabel(id, index, count), w3))
  }

  lemma ReadLabelRoundTrip(l: PskLabel, rest: Wire)
    ensures ReadLabel(EncodeLabel(l) + rest) == Some((l, rest))
  {
    var tail := [Num(l.index), Num(l.count)] + rest;
    assert EncodeLabel(l) + rest == Encode(l.pskId) + tail;
    ReadRoundTrip(l.pskId, tail);
    assert tail[1..][1..] == rest;
  }
}
