/**
 * PSK resolution: a lookup maps a `PreSharedKeyId` to its secret or fails.
 * `EMPTY` knows nothing; `delegatingTo` asks a primary lookup and falls back to
 * a second one only when the primary reports the id as not found.
 */
module PskLookups {
  import opened Codec
  import opened Psks

  type Secret = Bytes

  /**
   * A lookup: the empty one, any other source (a configured store, a
   * resumption-secret cache, ...) identified by a name so that the sources a
   * resolution consults can be traced, or a delegating pair.
   */
  datatype PskLookup =
    | Empty
    | Source(name: nat, resolve: PreSharedKeyId -> Result<Secret, PskError>)
    | Delegating(primary: PskLookup, fallback: PskLookup)

  /** `EMPTY`. */
  const EMPTY: PskLookup := Empty

  /** `primary delegatingTo fallback`. */
  function DelegatingTo(primary: PskLookup, fallback: PskLookup): PskLookup
  {
    Delegating(primary, fallback)
  }

  /** `resolvePsk`. */
  function ResolvePsk(l: PskLookup, id: PreSharedKeyId): Result<Secret, PskError>
  {
    match l
    case Empty => Failure(PskNotFound(id))
    case Source(_, resolve) => resolve(id)
    case Delegating(primary, fallback) =>
      match ResolvePsk(primary, id)
      case Success(secret) => Success(secret)
      case Failure(PskNotFound(_)) => ResolvePsk(fallback, id)
      case Failure(err) => Failure(err)
  }

  /** The sources a resolution invokes, in order. */
  function Consulted(l: PskLookup, id: PreSharedKeyId): seq<nat>
  {
    match l
    case Empty => []
    case Source(name, _) => [name]
    case Delegating(primary, fallback) =>
      if ResolvePsk(primary, id).Failure? && ResolvePsk(primary, id).error.PskNotFound? then
        Consulted(primary, id) + Consulted(fallback, id)
      else
        Consulted(primary, id)
  }

  /** `EMPTY` resolves nothing: every id is reported as not found. */
  lemma EmptyResolvesNothing(id: PreSharedKeyId)
    ensures ResolvePsk(EMPTY, id) == Failure(PskNotFound(id))
    ensures Consulted(EMPTY, id) == []
  {
  }

  /** When the primary resolves the id, its secret is returned and the fallback is never consulted. */
  lemma PrimaryHit(a: PskLookup, b: PskLookup, id: PreSharedKeyId)
    requires ResolvePsk(a, id).Success?
    ensures ResolvePsk(DelegatingTo(a, b), id) == ResolvePsk(a, id)
    ensures Consulted(DelegatingTo(a, b), id) == Consulted(a, id)
  {
  }

  /** When the primary reports "not found", the answer is exactly the fallback's, success or error. */
  lemma PrimaryNotFound(a: PskLookup, b: PskLookup, id: PreSharedKeyId)
    requires ResolvePsk(a, id).Failure? && ResolvePsk(a, id).error.PskNotFound?
    ensures ResolvePsk(DelegatingTo(a, b), id) == ResolvePsk(b, id)
    ensures Consulted(DelegatingTo(a, b), id) == Consulted(a, id) + Consulted(b, id)
  {
  }

  /** Any other primary error is passed on unchanged and the fallback is never consulted. */
  lemma PrimaryOtherError(a: PskLookup, b: PskLookup, id: PreSharedKeyId)
    requires ResolvePsk(a, id).Failure? && !ResolvePsk(a, id).error.PskNotFound?
    ensures ResolvePsk(DelegatingTo(a, b), id) == ResolvePsk(a, id)
    ensures Consulted(DelegatingTo(a, b), id) == Consulted(a, id)
  {
  }

  /** `EMPTY delegatingTo b` resolves every id exactly as `b` does, consulting the same sources. */
  lemma EmptyDelegatingTo(b: PskLookup, id: PreSharedKeyId)
    ensures ResolvePsk(DelegatingTo(EMPTY, b), id) == ResolvePsk(b, id)
    ensures Consulted(DelegatingTo(EMPTY, b), id) == Consulted(b, id)
  {
  }

  /** Chains built with `delegatingTo` may be grouped either way. */
  lemma DelegatingAssociative(a: PskLookup, b: PskLookup, c: PskLookup, id: PreSharedKeyId)
    ensures ResolvePsk(DelegatingTo(DelegatingTo(a, b), c), id) == ResolvePsk(DelegatingTo(a, DelegatingTo(b, c)), id)
    ensures Consulted(DelegatingTo(DelegatingTo(a, b), c), id) == Consulted(DelegatingTo(a, DelegatingTo(b, c)), id)
  {
    var ra := ResolvePsk(a, id);
    if ra.Failure? && ra.error.PskNotFound? {
      var rb := ResolvePsk(b, id);
      if rb.Failure? && rb.error.PskNotFound? {
        assert Consulted(a, id) + Consulted(b, id) + Consulted(c, id)
            == Consulted(a, id) + (Consulted(b, id) + Consulted(c, id));
      }
    }
  }
}
