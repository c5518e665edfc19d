# MLS group state in Dafny

A model of the group-state core of an MLS (RFC 9420) implementation in
Kotlin, with proofs about it. The model covers six parts:

- the integrity check a member runs on a ratchet tree it is given
  (section 12.4.3.1 of RFC 9420, which also states the unmerged-leaf rule,
  with the parent-hash rule of section 7.9.2): `TreeCheck`, in `tree_check.dfy`;
- pre-shared key identifiers, their validation, wire layout and `PSKLabel`
  (sections 8.4 and 8.6): `Psks`, in `psk.dfy`;
- chaining of PSK lookups with a fallback taken only on "not found":
  `PskLookups`, in `psk_lookup.dfy`;
- the group context and its record-update operations
  (sections 8.1 and 8.2): `GroupContexts`, in `group_context.dfy`;
- the Welcome message: recipient lookup, sealing and opening of
  `GroupSecrets`, and the welcome key schedule that decrypts the shared
  GroupInfo (section 12.4.3): `Welcomes`, in `welcome.dfy`;
- GroupInfo: signing and verifying its to-be-signed view
  (sections 12.4.3 and 5.1.2): `GroupInfos`, in `group_info.dfy`.

Three supporting modules carry no source logic of their own:

- `Codec` (`codec.dfy`) is the abstract wire format. An encoding is a
  sequence of fields: a number, an opaque byte string, or verbatim bytes. A
  vector is its element count followed by its elements, and an optional is a
  0/1 flag followed by the value. Every message and vector encoder, here and
  in the other modules, has a reader, and each pair has a round-trip lemma.
  There are two kinds of exception. The per-element encoders
  `EncodeExtension` and `Welcomes.EncodeEncryptedGroupSecrets` are read
  inline by their vector's reader. `GroupInfos.EncodeTbs` and
  `GroupContexts.EncodeInterimInput` only feed signing and hashing, and are
  never decoded.
- `Tree` (`tree.dfy`) holds the tree arithmetic of Appendix C of RFC 9420,
  for full trees of depth `d`. It covers `parent`, `root`, `level`, leaf `i`
  at node `2i`, and `isInSubtreeOf`. It also defines a tree snapshot as a
  sequence of optional nodes.
- `Crypto` (`crypto.dfy`) makes the cipher suite a record of uninterpreted
  functions: hash, MAC, key derivation, HPKE and AEAD seal/open,
  sign/verify, tree hash and parent hash. The only assumptions made about
  them are three predicates that lemmas take as preconditions:
  - `HpkeRoundTrip`: opening with a genuine key pair, one whose public key
    is `hpkePublicKey` of its private key, undoes sealing to that public key;
  - `AeadRoundTrip`: AEAD decryption undoes encryption;
  - `SignatureCorrect`: a signature made with a private key verifies under
    its public key.

The tree check is modelled imperatively, as in the source. Each part of it
is a `method` that keeps the source's mutable state in local variables:
- the coverage map, a `map<NodeIndex, nat>`;
- the current node and reference node of each upward walk;
- the index loops over parents and leaves.

Each method is proved equal to a specification function. Lemmas then state
what that function means: which leaves vouch for which parents, what a
consistent unmerged list is, which nodes share a key, and when the whole
check passes. The other five parts are pure in the source and are modelled
as functions.

## Model

| member | source | states |
|---|---|---|
| TreeCheck.Check | protocol/src/main/kotlin/com/github/traderjoe95/mls/protocol/tree/TreeCheck.kt:14-38 | The method returns exactly the first failure, taken in the source's order. The order is: tree hash, parent-hash coverage, then each non-blank parent in ascending index (unmerged leaves, then duplicate keys), then each non-blank leaf's own validation. It returns `Pass` when nothing fails. |
| TreeCheck.CheckPassesIff | protocol/src/main/kotlin/com/github/traderjoe95/mls/protocol/tree/TreeCheck.kt:14-38 | The check passes iff all of these hold: the tree hash equals the context's; every non-blank parent is vouched for by exactly one leaf's walk; every parent's unmerged leaves are consistent and its encryption key is held by no other node; every non-blank leaf is accepted by its validator. |
| TreeCheck.CheckErrorOrder | protocol/src/main/kotlin/com/github/traderjoe95/mls/protocol/tree/TreeCheck.kt:15-37 | A tree-hash mismatch always yields `BadTreeHash(context hash, computed hash)`. Each later kind of error arises only when every earlier check passed. `NotParentHashValid` names a non-blank parent whose claim count is not 1. `BadUnmergedLeaf` and `DuplicateEncryptionKey` report the lowest non-blank parent that is not consistent, as `ReportsParent` states. `LeafNodeInvalid` names the lowest non-blank leaf that its validator rejects, and carries that validator's error as the reason. |
| TreeCheck.CheckParentHashCoverage | protocol/src/main/kotlin/com/github/traderjoe95/mls/protocol/tree/TreeCheck.kt:41-76 | The method walks up from every non-blank leaf, building the coverage map. It then fails on the first non-blank parent whose count is not 1. The result equals `CoverageResult`. |
| TreeCheck.WalkLeaf | protocol/src/main/kotlin/com/github/traderjoe95/mls/protocol/tree/TreeCheck.kt:47-70 | The `while` walk from one leaf adds exactly one claim to each node of that leaf's `Claims` and changes no other count. |
| TreeCheck.WalkStep | protocol/src/main/kotlin/com/github/traderjoe95/mls/protocol/tree/TreeCheck.kt:50-69 | One step of the walk moves one level up. A blank non-root ancestor is skipped and the reference node is kept. A blank root ends the walk. A non-blank ancestor is claimed iff its computed parent hash equals the reference node's stored one, and it then becomes the reference. Otherwise the walk ends. A missing stored hash never matches. |
| TreeCheck.ClaimsFromAscend | protocol/src/main/kotlin/com/github/traderjoe95/mls/protocol/tree/TreeCheck.kt:48-70 | Every node a walk claims is a non-blank parent and a proper ancestor of the starting node. The claimed nodes have strictly increasing levels. |
| TreeCheck.ClaimsDistinct | protocol/src/main/kotlin/com/github/traderjoe95/mls/protocol/tree/TreeCheck.kt:48-70 | One leaf's walk claims any node at most once. |
| TreeCheck.BumpAllCount | protocol/src/main/kotlin/com/github/traderjoe95/mls/protocol/tree/TreeCheck.kt:62-64 | Adding a repetition-free walk to the map raises a node's count by exactly one if the walk contains it, and leaves it unchanged otherwise. |
| TreeCheck.CoverageCountsClaims | protocol/src/main/kotlin/com/github/traderjoe95/mls/protocol/tree/TreeCheck.kt:42-71 | After the walks of leaves `0 .. n-1`, each node's count (`getOrDefault(x, 0)`) is the number of non-blank leaves among them whose walk claims it. |
| TreeCheck.FirstUncoveredMeaning | protocol/src/main/kotlin/com/github/traderjoe95/mls/protocol/tree/TreeCheck.kt:73-75 | The final scan finds nothing iff every non-blank parent has count 1. Otherwise it finds the lowest non-blank parent whose count is not 1. |
| TreeCheck.CoverageResultMeaning | protocol/src/main/kotlin/com/github/traderjoe95/mls/protocol/tree/TreeCheck.kt:41-76 | Coverage passes iff every non-blank parent is claimed by exactly one leaf. On failure, `NotParentHashValid` names the lowest non-blank parent with a claim count other than 1; every lower non-blank parent has exactly one claim. |
| TreeCheck.CheckUnmergedLeaves | protocol/src/main/kotlin/com/github/traderjoe95/mls/protocol/tree/TreeCheck.kt:79-106 | The nested loops return exactly `UnmergedCheck`: the first unmerged leaf with a problem, in list order, and that problem. |
| TreeCheck.MissingIntermediateMeaning | protocol/src/main/kotlin/com/github/traderjoe95/mls/protocol/tree/TreeCheck.kt:92-104 | The upward scan finds nothing iff every non-blank node on the path below the parent lists the leaf. Otherwise it names the lowest such node that does not. |
| TreeCheck.UnmergedLeafProblemMeaning | protocol/src/main/kotlin/com/github/traderjoe95/mls/protocol/tree/TreeCheck.kt:80-104 | An unmerged leaf is rejected iff it is inconsistent. It is reported as blank iff its slot is blank. It is reported as "not a descendant" iff it is non-blank and outside the parent's subtree. Otherwise the named intermediate node is non-blank, lies strictly between leaf and parent, and lacks the leaf. |
| TreeCheck.UnmergedCheckMeaning | protocol/src/main/kotlin/com/github/traderjoe95/mls/protocol/tree/TreeCheck.kt:79-106 | A parent's unmerged-leaf check passes iff every listed leaf is consistent. A failure is `BadUnmergedLeaf(p, leaf, problem)`, where `leaf` is the first inconsistent listed leaf and `problem` is what is wrong with it. |
| TreeCheck.DuplicateKeyNodes | protocol/src/main/kotlin/com/github/traderjoe95/mls/protocol/tree/TreeCheck.kt:28-30 | The result holds exactly the non-blank nodes other than the parent whose encryption key equals the parent's. It is strictly ascending. |
| TreeCheck.DuplicateKeysMeaning | protocol/src/main/kotlin/com/github/traderjoe95/mls/protocol/tree/TreeCheck.kt:28-30 | The duplicate list from index `x` on holds exactly the key-sharing nodes at or above `x`, in strictly ascending order. |
| TreeCheck.ParentChecksMeaning | protocol/src/main/kotlin/com/github/traderjoe95/mls/protocol/tree/TreeCheck.kt:23-33 | The per-parent loop passes iff every non-blank parent has consistent unmerged leaves and a unique key. A failure reports the lowest non-blank parent that is not consistent. If its unmerged leaves are at fault, the error names its first bad unmerged leaf. Otherwise it is `DuplicateEncryptionKey` with every other node holding that parent's key, in ascending order. |
| TreeCheck.ParentChecksSameShape | protocol/src/main/kotlin/com/github/traderjoe95/mls/protocol/tree/TreeCheck.kt:23-33 | The per-parent checks depend only on which slots are blank or parents, on the unmerged-leaf lists, and on which nodes share each parent's key. Two trees that agree on these get the same outcome. |
| TreeCheck.LeafKeysNotCompared | protocol/src/main/kotlin/com/github/traderjoe95/mls/protocol/tree/TreeCheck.kt:28-32 | Only parents' keys are compared. Giving a leaf a new key leaves the outcome of the per-parent checks unchanged, provided no non-blank parent holds the old key or the new one. So two leaves that share a key are never reported. |
| TreeCheck.LeafChecksMeaning | protocol/src/main/kotlin/com/github/traderjoe95/mls/protocol/tree/TreeCheck.kt:35-37 | The leaf loop passes iff every non-blank leaf is accepted. A failure is a `LeafNodeInvalid`. |
| TreeCheck.LeafCheckFailure | protocol/src/main/kotlin/com/github/traderjoe95/mls/protocol/tree/TreeCheck.kt:35-37 | A failing leaf loop names the lowest non-blank leaf inside the tree that its validator rejects. Every lower non-blank leaf was accepted, and the reason is that validator's own error. |
| Tree.ParentInTree | protocol/src/main/kotlin/com/github/traderjoe95/mls/protocol/tree/TreeCheck.kt:50-51 | Every non-root node has its parent inside the tree, one level higher, so the walk to the root stays in range and terminates. |
| Tree.LevelOfParent | protocol/src/main/kotlin/com/github/traderjoe95/mls/protocol/tree/TreeCheck.kt:103 | The parent of a node is exactly one level higher. |
| Tree.LevelInTree | protocol/src/main/kotlin/com/github/traderjoe95/mls/protocol/tree/TreeCheck.kt:50 | Every node of a depth-`d` tree has level at most `d`. Only the root has level `d`. |
| Tree.SubtreeLevel | protocol/src/main/kotlin/com/github/traderjoe95/mls/protocol/tree/TreeCheck.kt:82 | An ancestor is never below its descendant. An ancestor at the same level is the node itself. |
| Tree.SubtreeStep | protocol/src/main/kotlin/com/github/traderjoe95/mls/protocol/tree/TreeCheck.kt:92-103 | For `y` other than `x`, `y` is an ancestor of `x` iff it is an ancestor of `x`'s parent (or that parent itself). |
| Tree.LeafSlotInTree | protocol/src/main/kotlin/com/github/traderjoe95/mls/protocol/tree/TreeCheck.kt:44 | Every leaf index below the leaf count addresses a slot of the tree. |
| Tree.LeafIsNotParent | protocol/src/main/kotlin/com/github/traderjoe95/mls/protocol/tree/TreeCheck.kt:80-92 | A non-blank leaf slot is never a non-blank parent, and it holds a leaf node. |
| Psks.PskTypeFromOrd | protocol/src/main/kotlin/com/github/traderjoe95/mls/protocol/psk/Psk.kt:29-44 | Only wire values 1 (External) and 2 (Resumption) are valid `psktype`s; 0 and everything else are rejected. It is the inverse of `PskTypeOrd`. |
| Psks.UsageFromOrd | protocol/src/main/kotlin/com/github/traderjoe95/mls/protocol/psk/Psk.kt:46-62 | Only 1 (Application), 2 (ReInit) and 3 (Branch) are valid usages. It is the inverse of `UsageOrd`. |
| Psks.Validate | protocol/src/main/kotlin/com/github/traderjoe95/mls/protocol/psk/Psk.kt:150-161 | Success returns the id itself. It succeeds iff the nonce length equals the suite's hash length and a resumption id's usage is allowed in the flow. `BadPskNonce(id, hashLen, nonce length)` is returned iff the length differs, for both variants, so the nonce check comes first. `InvalidPskUsage` only concerns ReInit or Branch. |
| Psks.ExternalValidateIgnoresFlow | protocol/src/main/kotlin/com/github/traderjoe95/mls/protocol/psk/Psk.kt:72-88 | An external id's validation does not depend on the re-init and branch flags. |
| Psks.ApplicationUsageNeverRejected | protocol/src/main/kotlin/com/github/traderjoe95/mls/protocol/psk/Psk.kt:159-160 | An `Application` resumption id can only fail on its nonce. |
| Psks.Equals | protocol/src/main/kotlin/com/github/traderjoe95/mls/protocol/psk/Psk.kt:165-177 | Equality is field-wise within a variant, and ids of different variants are never equal. |
| Psks.ReInitPsk | protocol/src/main/kotlin/com/github/traderjoe95/mls/protocol/psk/Psk.kt:200-209 | The result is a ReInit id for the given group id and epoch. With a hash-length nonce it validates exactly when in a re-init flow, and fails with `InvalidPskUsage` otherwise. |
| Psks.BranchPsk | protocol/src/main/kotlin/com/github/traderjoe95/mls/protocol/psk/Psk.kt:211-217 | The result is a Branch id for the given group id and epoch. It validates exactly when in a branch flow, and fails with `InvalidPskUsage` otherwise. |
| Psks.ReadRoundTrip | protocol/src/main/kotlin/com/github/traderjoe95/mls/protocol/psk/Psk.kt:90-101 | Decoding an encoded id (tag, then the variant's fields in order) gives the same id and leaves the rest of the input. |
| Psks.PskLabelOfInts | protocol/src/main/kotlin/com/github/traderjoe95/mls/protocol/psk/Psk.kt:226 | The `Int` constructor keeps the id. `index` and `count` are congruent to the arguments modulo 2^16, and equal to them when they are in range. |
| Psks.ReadLabelRoundTrip | protocol/src/main/kotlin/com/github/traderjoe95/mls/protocol/psk/Psk.kt:228-235 | `PSKLabel` decodes back to itself. |
| PskLookups.EmptyResolvesNothing | protocol/src/main/kotlin/com/github/traderjoe95/mls/protocol/psk/PskLookup.kt:13-17 | `EMPTY` fails every id with `PskNotFound(id)` and consults no source. |
| PskLookups.PrimaryHit | protocol/src/main/kotlin/com/github/traderjoe95/mls/protocol/psk/PskLookup.kt:23-24 | When the primary succeeds, its secret is the answer and the fallback is never consulted. |
| PskLookups.PrimaryNotFound | protocol/src/main/kotlin/com/github/traderjoe95/mls/protocol/psk/PskLookup.kt:26-27 | When the primary reports "not found", the answer is exactly the fallback's, success or error. Both are consulted in order. |
| PskLookups.PrimaryOtherError | protocol/src/main/kotlin/com/github/traderjoe95/mls/protocol/psk/PskLookup.kt:28 | Any other primary error is returned unchanged and the fallback is never consulted. |
| PskLookups.EmptyDelegatingTo | protocol/src/main/kotlin/com/github/traderjoe95/mls/protocol/psk/PskLookup.kt:13-31 | `EMPTY delegatingTo b` resolves every id as `b` does and consults the same sources. |
| PskLookups.DelegatingAssociative | protocol/src/main/kotlin/com/github/traderjoe95/mls/protocol/psk/PskLookup.kt:19-31 | `(a delegatingTo b) delegatingTo c` and `a delegatingTo (b delegatingTo c)` give the same answers and consult the same sources in the same order. |
| GroupContexts.Settings | protocol/src/main/kotlin/com/github/traderjoe95/mls/protocol/group/GroupContext.kt:49-52 | The settings copy the version, suite and group id, with `keepPastEpochs` 5 and `public` false by default. |
| GroupContexts.Provisional | protocol/src/main/kotlin/com/github/traderjoe95/mls/protocol/group/GroupContext.kt:68-79 | The epoch becomes `epoch + 1` modulo 2^64, and the tree hash becomes the new tree's hash. Every other field is unchanged. |
| GroupContexts.WithExtensions | protocol/src/main/kotlin/com/github/traderjoe95/mls/protocol/group/GroupContext.kt:81-91 | Only the extensions are replaced. |
| GroupContexts.WithInterimTranscriptHash | protocol/src/main/kotlin/com/github/traderjoe95/mls/protocol/group/GroupContext.kt:93-109 | The interim hash becomes `hash(confirmed ‖ InterimTranscriptHashInput(tag))`. Every other field is unchanged. |
| GroupContexts.New | protocol/src/main/kotlin/com/github/traderjoe95/mls/protocol/group/GroupContext.kt:124-150 | The new context has version MLS 1.0, epoch 0, the given group id, an empty confirmed hash and the given extensions. The tree hash is the tree's hash. The interim hash is the hash of the input built from `MAC(confirmationKey, "")`. |
| GroupContexts.NewSeedsTranscript | protocol/src/main/kotlin/com/github/traderjoe95/mls/protocol/group/GroupContext.kt:141-149 | The seeded interim hash is exactly the one `withInterimTranscriptHash` derives from the empty confirmed hash and the initial tag. |
| GroupContexts.Create | protocol/src/main/kotlin/com/github/traderjoe95/mls/protocol/group/GroupContext.kt:152-165 | The version, suite and group id come from the settings. The epoch, both transcript hashes and the extensions come from the epoch. The tree hash is recomputed from the epoch's tree. |
| GroupContexts.CreateFromSettingsRestores | protocol/src/main/kotlin/com/github/traderjoe95/mls/protocol/group/GroupContext.kt:152-165 | A context split into its settings and a matching epoch is rebuilt exactly, provided the epoch's tree hashes to the stored tree hash. |
| GroupContexts.ReadRoundTrip | protocol/src/main/kotlin/com/github/traderjoe95/mls/protocol/group/GroupContext.kt:111-122 | The seven-field struct decodes back to the context, except that the interim hash, which is not on the wire, comes back empty. |
| GroupContexts.EncodeIgnoresInterim | protocol/src/main/kotlin/com/github/traderjoe95/mls/protocol/group/GroupContext.kt:113-122 | Contexts that differ only in their interim hash have the same encoding. |
| Welcomes.FindRecipient | protocol/src/main/kotlin/com/github/traderjoe95/mls/protocol/message/Welcome.kt:46-49 | The search finds nothing iff no entry names the reference. Otherwise it finds the first entry that does. |
| Welcomes.DecryptGroupSecrets | protocol/src/main/kotlin/com/github/traderjoe95/mls/protocol/message/Welcome.kt:36-52 | `WelcomeNotForYou` iff no entry names the caller's reference. Otherwise the first entry naming it is opened with label "Welcome" and the encrypted GroupInfo as context. If opening fails, the result is `DecryptFailed` with its error. If the plaintext does not decode, the result is `DecodeFailed`. Otherwise the result is `Success` with the decoded secrets. |
| Welcomes.DecryptGroupSecretsFor | protocol/src/main/kotlin/com/github/traderjoe95/mls/protocol/message/Welcome.kt:33-34 | The same outcomes, for the key package's reference and init key pair: `WelcomeNotForYou` iff no entry names the reference. Otherwise the first such entry's open failure is `DecryptFailed`, its decode failure is `DecodeFailed`, and success holds the decoded secrets. |
| Welcomes.Encrypt | protocol/src/main/kotlin/com/github/traderjoe95/mls/protocol/message/Welcome.kt:85-100 | The result succeeds iff sealing succeeds. A failure carries the seal error as `HpkeEncryptFailed`. The entry names the key package's reference and holds the `GroupSecrets` encoding, sealed to its init key with label "Welcome" and the encrypted GroupInfo as context. |
| Welcomes.GroupSecretsRoundTrip | protocol/src/main/kotlin/com/github/traderjoe95/mls/protocol/message/Welcome.kt:42-50 | Given that opening with a genuine key pair undoes sealing to its public key, `GroupSecrets` sealed for a key package comes back unchanged. The package's init key pair must be genuine: its public key is `hpkePublicKey` of its private key. This holds whatever entries follow it, as long as none before it names the same reference. |
| Welcomes.DecryptGroupInfo | protocol/src/main/kotlin/com/github/traderjoe95/mls/protocol/message/Welcome.kt:54-68 | The result is never `WelcomeNotForYou`. The ciphertext is decrypted with empty AAD under the key and nonce from `expandWithLabel(deriveSecret(extract(joiner, psk), "welcome"), "key"/"nonce")`. A decryption failure is `DecryptFailed` with its error. A plaintext that is not a complete GroupInfo is `DecodeFailed`. Otherwise the result is `Success` with the decoded GroupInfo. |
| Welcomes.GroupInfoRoundTrip | protocol/src/main/kotlin/com/github/traderjoe95/mls/protocol/message/Welcome.kt:54-68 | Given that AEAD decryption undoes encryption, a GroupInfo encrypted under the welcome key and nonce of the same joiner and PSK secrets is recovered. |
| Welcomes.ReadGroupSecretsRoundTrip | protocol/src/main/kotlin/com/github/traderjoe95/mls/protocol/message/Welcome.kt:102-109 | `GroupSecrets` (joiner secret, optional path secret, PSK id vector) decodes back to itself. |
| Welcomes.DecodeGroupSecretsRoundTrip | protocol/src/main/kotlin/com/github/traderjoe95/mls/protocol/message/Welcome.kt:102-109 | A complete `GroupSecrets` encoding decodes to the same value with nothing left over. |
| Welcomes.ReadOptionalSecretRoundTrip | protocol/src/main/kotlin/com/github/traderjoe95/mls/protocol/message/Welcome.kt:106 | The optional path secret decodes back to itself, absent or present. |
| Welcomes.ReadPskItemsRoundTrip | protocol/src/main/kotlin/com/github/traderjoe95/mls/protocol/message/Welcome.kt:107 | The PSK id vector decodes back to itself. |
| Welcomes.ReadSecretsItemsRoundTrip | protocol/src/main/kotlin/com/github/traderjoe95/mls/protocol/message/Welcome.kt:112-123 | The `EncryptedGroupSecrets` entries decode back to themselves. |
| Welcomes.ReadWelcomeRoundTrip | protocol/src/main/kotlin/com/github/traderjoe95/mls/protocol/message/Welcome.kt:70-77 | A Welcome (suite, entry vector, encrypted GroupInfo) decodes back to itself. |
| GroupInfos.EncodeIsTbsThenSignature | protocol/src/main/kotlin/com/github/traderjoe95/mls/protocol/message/GroupInfo.kt:84-99 | The signed view is the GroupInfo's field list, in the same order, without the trailing signature. |
| GroupInfos.ReadRoundTrip | protocol/src/main/kotlin/com/github/traderjoe95/mls/protocol/message/GroupInfo.kt:51-60 | A GroupInfo decodes back to itself, with its context's interim hash empty. |
| GroupInfos.Create | protocol/src/main/kotlin/com/github/traderjoe95/mls/protocol/message/GroupInfo.kt:62-81 | The context, extensions, tag and signer are stored as given. The signature is `signWithLabel(key, "GroupInfoTBS", encode(Tbs))`. A signing failure becomes `SigningFailed`. |
| GroupInfos.VerifySignature | protocol/src/main/kotlin/com/github/traderjoe95/mls/protocol/message/GroupInfo.kt:37-49 | Verification succeeds iff the signature verifies over the `Tbs` with label "GroupInfoTBS", under the signature key of the signer's leaf in the given tree. On success the GroupInfo is returned unchanged. |
| GroupInfos.CreateThenVerify | protocol/src/main/kotlin/com/github/traderjoe95/mls/protocol/message/GroupInfo.kt:62-81 | Given correct signatures, a GroupInfo made by `create` verifies against any tree whose signer leaf holds the matching public key. |
| Codec.ReadExtensionsRoundTrip | protocol/src/main/kotlin/com/github/traderjoe95/mls/protocol/group/GroupContext.kt:121 | An extension list decodes back to itself. |
| Codec.ReadExtensionItemsRoundTrip | protocol/src/main/kotlin/com/github/traderjoe95/mls/protocol/message/GroupInfo.kt:56 | The extension entries (type, data) decode back to themselves. |

## Left out

- Byte-level encoding. Encodings are field sequences, not bytes. A vector is
  prefixed with its element count rather than its byte length in a varint.
  The round-trip lemmas therefore require fewer than 2^32 entries. The
  codec module of the library is not part of this model.
- Encoder and decoder exceptions. Encoding and the tree hash are total here.
  A failed decode is `DecodeFailed`, without the decoder's error detail.
- Cryptography. Hash, MAC, key derivation, HPKE, AEAD, signatures, the tree
  hash and the parent hash are uninterpreted. Their correctness enters only
  through the three round-trip predicates of `Crypto`.
- Randomness. The fresh ULID of `new` and the fresh nonces of `reInit` and
  `branch` are parameters, and HPKE's ephemeral randomness is inside the
  uninterpreted seal.
- Coroutines. `suspend` on `check` and `resolvePsk` is modelled as
  sequential evaluation.
- Custom PSK lookups. A lookup other than `EMPTY` or `delegatingTo` is a
  named function from id to result.
- Formatting and hashing. `toString` and `hashCode` of the PSK ids are not
  modelled, and neither are the error messages' exact text. The
  unmerged-leaf reasons are a datatype.
- Per-leaf validation of section 7.3 of RFC 9420 (`LeafNode.validate`). It
  is a parameter of the check, a function from tree, context and leaf index
  to pass or fail.
- The tree. The ratchet tree is a full tree whose width is `2^(d+1) - 1`.
  The check's loops visit parent indices and leaf indices in ascending
  order, which the model takes to be the order of the tree's
  `nonBlankParentNodeIndices` and `leaves`; the tree class is not part of
  this model.
- TreeCheck.CheckUnmergedLeaves: an unmerged leaf index beyond the tree
  counts as blank.
- TreeCheck.CheckParentHashCoverage: the `UInt` counters are unbounded
  naturals. A count cannot exceed the number of leaves, so wrap-around never
  arises.
- TreeCheck: the property that changing any parent hash makes the check fail
  is not proved. It would need the parent hash to be injective, which the
  uninterpreted parent hash does not promise.
- GroupContexts.Provisional: the ambient cipher suite is taken to be the
  context's own suite. The same holds for
  GroupContexts.WithInterimTranscriptHash.
- GroupInfos.VerifySignature: it requires the signer's leaf to be non-blank
  in the given tree. The library's `leafNode(signer)` lookup of a blank leaf
  is not part of this model. Its `SignatureInvalid` failure also assumes
  that the library's `verifyWithLabel`, whose result `verifySignature` ignores
  inside `either { }`, raises `VerifySignatureError` when a signature is
  bad. That function is not part of this model.
- GroupInfos.Create: the `extensions` argument has no default value. The
  source defaults it to the empty list.
