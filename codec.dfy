/**
 * Shared vocabulary of the MLS group-state model: failure-carrying results,
 * bytes and fixed-width integers, and an abstract wire format.
 *
 * The byte-level codec (length prefixes, integer widths, the struct DSL) is not
 * part of this model. An encoding is a sequence of fields instead: `Num` for an
 * enum or integer, `Octets` for a length-prefixed byte string (`opaque<V>`), and
 * `Raw` for bytes written verbatim without a prefix. A vector is written as its
 * element count followed by its elements, an optional value as a presence flag
 * (0 or 1) followed by the value.
 */
module Codec {

  datatype Option<+T> = None | Some(value: T)

  datatype Result<+T, +E> = Success(value: T) | Failure(error: E)

  datatype Outcome<+E> = Pass | Fail(error: E)

  type Byte = b: int | 0 <= b < 0x100
  type Bytes = seq<Byte>

  const U16_LIMIT: nat := 0x1_0000
  const U32_LIMIT: nat := 0x1_0000_0000
  const U64_LIMIT: nat := 0x1_0000_0000_0000_0000

  type U8 = n: nat | n < 0x100
  type U16 = n: nat | n < 0x1_0000
  type U32 = n: nat | n < 0x1_0000_0000
  type U64 = n: nat | n < 0x1_0000_0000_0000_0000

  datatype Field = Num(n: nat) | Octets(bytes: Bytes) | Raw(raw: Bytes)

  type Wire = seq<Field>

  /** Reads an integer field below `limit` from the front of `w`. */
  function ReadNum(w: Wire, limit: nat): (r: Option<(nat, Wire)>)
    ensures r.Some? <==> |w| > 0 && w[0].Num? && w[0].n < limit
    ensures r.Some? ==> r.value.0 == w[0].n && r.value.0 < limit && r.value.1 == w[1..]
  {
    if |w| > 0 && w[0].Num? && w[0].n < limit then Some((w[0].n, w[1..])) else None
  }

  /** Reads a length-prefixed byte string from the front of `w`. */
  function ReadOctets(w: Wire): (r: Option<(Bytes, Wire)>)
    ensures r.Some? <==> |w| > 0 && w[0].Octets?
    ensures r.Some? ==> r.value.0 == w[0].bytes && r.value.1 == w[1..]
  {
    if |w| > 0 && w[0].Octets? then Some((w[0].bytes, w[1..])) else None
  }

  /** An extension entry: its type and its opaque payload. */
  datatype Extension = Extension(extensionType: U16, extensionData: Bytes)

  function EncodeExtension(e: Extension): Wire
  {
    [Num(e.extensionType), Octets(e.extensionData)]
  }

  function EncodeExtensionItems(es: seq<Extension>): Wire
  {
    if es == [] then [] else EncodeExtension(es[0]) + EncodeExtensionItems(es[1..])
  }

  /** `Extension<V>`: the count, then the entries in order. */
  function EncodeExtensions(es: seq<Extension>): Wire
  {
    [Num(|es|)] + EncodeExtensionItems(es)
  }

  function ReadExtensionItems(w: Wire, count: nat): (r: Option<(seq<Extension>, Wire)>)
    ensures r.Some? ==> |r.value.0| == count && |r.value.1| <= |w|
    decreases count
  {
    if count == 0 then Some(([], w))
    else if |w| < 2 || !w[0].Num? || w[0].n >= U16_LIMIT || !w[1].Octets? then None
    else
      match ReadExtensionItems(w[2..], count - 1)
      case None => None
      case Some((rest, w')) => Some(([Extension(w[0].n, w[1].bytes)] + rest, w'))
  }

  function ReadExtensions(w: Wire): (r: Option<(seq<Extension>, Wire)>)
    ensures r.Some? ==> |r.value.1| < |w|
  {
    match ReadNum(w, U32_LIMIT)
    case None => None
    case Some((count, w')) => ReadExtensionItems(w', count)
  }

  lemma {:induction false} ReadExtensionItemsRoundTrip(es: seq<Extension>, rest: Wire)
    ensures ReadExtensionItems(EncodeExtensionItems(es) + rest, |es|) == Some((es, rest))
  {
    if es != [] {
      var w := EncodeExtensionItems(es) + rest;
      assert w == EncodeExtension(es[0]) + (EncodeExtensionItems(es[1..]) + rest);
      assert w[0] == Num(es[0].extensionType) && w[1] == Octets(es[0].extensionData);
      assert w[2..] == EncodeExtensionItems(es[1..]) + rest;
      ReadExtensionItemsRoundTrip(es[1..], rest);
      assert Extension(w[0].n, w[1].bytes) == es[0];
      assert [es[0]] + es[1..] == es;
    } else {
      assert EncodeExtensionItems(es) + rest == rest;
    }
  }

  /** Decoding an encoded extension list gives the list back and leaves what follows untouched. */
  lemma ReadExtensionsRoundTrip(es: seq<Extension>, rest: Wire)
    requires |es| < U32_LIMIT
    ensures ReadExtensions(EncodeExtensions(es) + rest) == Some((es, rest))
  {
    var w := EncodeExtensions(es) + rest;
    assert w == [Num(|es|)] + (EncodeExtensionItems(es) + rest);
    assert w[1..] == EncodeExtensionItems(es) + rest;
    ReadExtensionItemsRoundTrip(es, rest);
  }
}
