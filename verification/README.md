# Verified model of the BIP-138 backup tool

BIP-138 encrypts wallet data, mostly descriptors, to the public keys of the wallet's
cosigners: any one key is enough to decrypt. This project models the Rust workspace that
implements it and proves what its users rely on, for all inputs.

Check everything with `dafny verify dfyconfig.toml` (Dafny 4.11).

## What is modelled

From the bytes up:

- **Codec.** `CompactSize`, `Contents`, `Payload`, `Container`, `Frames`: the minimal integers,
  the content items, and the self-delimiting container with its sorted sets. Parsers and
  encoders are loops proved against functions; `CanonicalContainer` and `LengthWalk` state what
  is accepted, what is re-encoded, and what the walk over several payloads reads. `usize` is 32
  or 64 bits wide and nothing says which; additions are checked or not where the code has it so.
- **Sizes.** `PaddingSizes`: the ladder 10240 * 5^k / 4^k computed in 128 bits, and the doubling
  counts of the secrets.
- **Secrets.** `Xor`, `Secrets`, `SecretProofs`, `Backup`, `EndToEnd`, `EncoderProofs`: one secret
  masked per key, hidden among decoys, sorted, and searched linearly. SHA-256 and the cipher are
  parameters with two hypotheses: decryption inverts encryption (section 2.8 of RFC 8439), and no
  other slot opens the ciphertext. `EndToEnd.HypothesesCanBeMet` exhibits primitives and a backup
  for which all of it holds. That the secret differs from each mask is not assumed: the encoder's
  assertion is an error of the model. That different keys give different secrets and masks is
  proved wherever SHA-256 does not collide on the two inputs. `EncoderProofs` gives the encoder's
  outcome for every argument.
- **Wallets.** `Descriptors`, `Classification`, `WalletPolicies`, `PolicyBackups`: descriptors are
  trees with key expressions at the leaves; BIP-388 policies are templates and key vectors,
  translated in any visiting order.
- **Builder.** `Pools`, `Documents`, `Builders`: the mutable builder pools keys, paths, exposed
  x-coordinates and warnings, and evicts exposed keys retroactively. The class keeps the source's
  fields; each method states the whole new state by a function on values, about which
  `PoolProofs`, `CosignerProofs`, `PathProofs` and `BuilderProofs` prove invariants of every run,
  confluence, where every cosigner and every path ends up, and the round trip of documents.
- **Command line.** `Onion` and `OnionLayers` are the wrap-level loop, `Collector` the plan for a
  signing device and the loop that follows it, `ConcurrentDecrypt` the two threads, flag, queue and
  channel of decryption as interleaved steps; `ConcurrentDecryptProofs` and
  `ConcurrentDecryptOutcomes` say what holds over all schedules. `DecryptCommand` joins them:
  whoever holds a key gets the documents, however the threads interleave.

Three properties hold only under a condition. For each the model proves exactly which, and gives
an input that fails:

- A descriptor made into a wallet policy comes back the same exactly when no multipath key
  expression has a single path (`WalletPolicyProofs.PolicyInverts`): such an expression resolves to
  a plain one (`WalletPolicyProofs.SinglePathIsLost`).
- A path given to the encoder is offered to the device exactly when it was stored or is not a
  common path of the other coin type (`CollectorProofs.GivenPathVisited`): the encoder leaves out
  the common paths of both coin types, while the collector tries those of its own network
  (`CollectorProofs.OtherCoinPathMissed`).
- The decrypt command returns what trying the keys in order would exactly when the device does not
  fail (`ConcurrentDecryptOutcomes.SequentialExactly`). With a device that fails, on unlocking or at
  any fetch, the possible results are that failure and the message of the first key that is not
  simply wrong, if there is one, and each is reached by some schedule
  (`ConcurrentDecryptOutcomes.OutcomesAre`).

One place where comments and code differ: the format asks for valid UTF-8 in string items; the
core's parser does not look, and only the builder's extraction refuses them. The model follows the
code.

## Model

| member | source | states |
|---|---|---|
| CompactSize.EncodeTo | bip138-ll/src/varint.rs:8-26 | appending to a vector writes exactly the encoding of the value |
| CompactSize.ParseEncode | bip138-ll/src/varint.rs:8-51 | every 64-bit value parses back with its own length, whatever follows |
| CompactSize.ParseIsEncoding | bip138-ll/src/varint.rs:31-51 | only the minimal encoding of a value is accepted |
| CompactSize.ParseIff | bip138-ll/src/varint.rs:8-51 | parsing gives a value and length exactly when the bytes start with that value's encoding: a minimal prefix code |
| Offsets.CheckOffsetLookahead | bip138-ll/src/lib.rs:637-648 | accepted exactly when the last byte looked at exists; no sum wraps and a zero lookahead at offset zero is refused |
| Offsets.IncrementOffset | bip138-ll/src/lib.rs:655-658 | advances exactly within the buffer; the overflow error cannot occur |
| Contents.ParseToBytes | bip138-ll/src/lib.rs:211-297 | every content type with an encoding parses back to its normal form, whatever follows |
| Contents.ParsedIsToBytes | bip138-ll/src/lib.rs:211-297 | a content type the parser knows was written exactly as the encoder writes it |
| Contents.FirstByte | bip138-ll/src/lib.rs:205-247 | an encoded content type starts neither with the terminator nor with a reserved type |
| Contents.NormalIs | bip138-ll/src/lib.rs:249-297 | 138, 139, 329, 380 and 388 parse to their named content types, every other type to itself |
| Contents.WireBytes | bip138-ll/src/lib.rs:205-247 | the bytes of a number, of a string and of a vendor tag |
| Payload.EncodePlaintextLoop | bip138-ll/src/lib.rs:490-504 | the byte-pushing loop writes the items back to back and pads with zeros to the padded size |
| Payload.DecodePlaintextLoop | bip138-ll/src/lib.rs:508-538 | the offset loop reads items up to the terminator or the end, for every byte string and length |
| Payload.PayloadRoundTrip | bip138-ll/src/lib.rs:490-538 | whatever is encoded decodes to the same items in order, under either padding |
| Payload.PayloadAccepts | bip138-ll/src/lib.rs:490-538 | a payload with no unknown type is accepted exactly when it starts with the encoding of its items, followed by nothing or a zero byte |
| Payload.EncodedPlaintext | bip138-ll/src/lib.rs:458-504 | encoding succeeds exactly when there are items that fit memory and, padded, the last rung; it gives the items back to back, then only zeros, up to the least rung that holds them, or none without padding |
| Payload.PaddedOnce | bip138-ll/src/lib.rs:458-504 | there is one such padded text |
| PaddingSizes.GeometricBucket | bip138-ll/src/lib.rs:467-485 | the 128-bit loop with checked multiplications terminates with the ladder size, or fails, as specified |
| PaddingSizes.GeometricLeast | bip138-ll/src/lib.rs:458-485 | no smaller rung 10240*5^k/4^k holds the payload |
| PaddingSizes.GeometricAccepts | bip138-ll/src/lib.rs:467-485 | padding succeeds exactly up to the last rung whose successor overflows 128 bits |
| PaddingSizes.LadderEnds | bip138-ll/src/lib.rs:467-485 | that last rung is the 49th, 573971850 bytes |
| PaddingSizes.GeometricMonotone | bip138-ll/src/lib.rs:458-485 | a shorter payload never gets a larger size |
| PaddingSizes.GeometricIdempotent | bip138-ll/src/lib.rs:458-485 | a padded size pads to itself |
| PaddingSizes.GeometricTight | bip138-ll/src/lib.rs:458-485 | above the minimum, padding adds less than a quarter |
| PaddingSizes.DoublingBucket | bip138-ll/src/lib.rs:446-456 | the doubling loop gives the least of 5, 10, 20, 40, 80, 160, 255 that fits, and fails above 255 |
| Container.EncodePathLoop | bip138-ll/src/lib.rs:545-568 | one path is written as its count and big-endian children |
| Container.EncodeDerivationPathsLoop | bip138-ll/src/lib.rs:545-568 | sorting, deduplication, limits and their errors, in the order of the source |
| Container.ParsePathLoop | bip138-ll/src/lib.rs:999-1038 | one path is read at an advancing offset, with every failure of the source |
| Container.ParseDerivationPathsLoop | bip138-ll/src/lib.rs:999-1038 | the paths are read into an ordered set; the size read is that of the list as written |
| Container.EncodeIndividualSecretsLoop | bip138-ll/src/lib.rs:572-588 | the secrets are written as a counted ordered set |
| Container.ParseIndividualSecretsLoop | bip138-ll/src/lib.rs:1046-1072 | the secrets are read into an ordered set |
| ContainerProofs.ParsePathListIff | bip138-ll/src/lib.rs:545-568 | a path list is read exactly when the bytes start with its encoding |
| ContainerProofs.ParseSecretListIff | bip138-ll/src/lib.rs:1046-1072 | a secret list is read exactly when the bytes start with its encoding |
| ContainerProofs.ParsePayloadIff | bip138-ll/src/lib.rs:1077-1100 | nonce and ciphertext are read exactly when the nonce is not zero and the bytes start with their framing |
| Frames.DecodeFrame | bip138-ll/src/lib.rs:607-738 | bytes that start with a valid frame decode to what the frame means |
| Frames.FrameUnique | bip138-ll/src/lib.rs:607-738 | no byte string starts with two different frames |
| CanonicalContainer.DecodeAccepts | bip138-ll/src/lib.rs:686-738 | `decode_v1` accepts exactly the byte strings that start with a valid frame |
| CanonicalContainer.SelfDelimiting | bip138-ll/src/lib.rs:629-738 | a prefix decodes, and alike, exactly when it reaches the end of the consumed part |
| CanonicalContainer.TrailingIgnored | bip138-ll/src/lib.rs:686-738 | bytes after an accepted container change nothing |
| CanonicalContainer.ReencodeFrame | bip138-ll/src/lib.rs:545-738 | re-encoding the parsed fields writes the canonical frame |
| CanonicalContainer.CanonicalForm | bip138-ll/src/lib.rs:545-738 | re-encoding succeeds, decodes to the same fields, is never longer, and equals the consumed bytes exactly when paths and secrets were strictly sorted |
| CanonicalContainer.ReencodeFixed | bip138-ll/src/lib.rs:545-738 | decode-then-encode is a fixed point of itself |
| CanonicalContainer.PartialDecoders | bip138-ll/src/lib.rs:662-681 | the decoders of the version and of the paths agree with the full one |
| LengthWalk.ParsePayloadLengthsLoop | bip138-ll/src/lib.rs:1102-1121 | the walk stops at the first payload that does not parse and fails only on the first |
| LengthWalk.PayloadLengthIff | bip138-ll/src/lib.rs:1125-1142 | a length is found exactly where a non-zero nonce, a length and that many bytes stand |
| LengthWalk.WalkAgrees | bip138-ll/src/lib.rs:711-714 | the length walk accepts exactly when the decoder does and starts with the decoded ciphertext's length |
| LengthWalk.LengthsFit | bip138-ll/src/lib.rs:1102-1142 | framed sizes, at least 13 bytes each, never add up past the input |
| LengthWalk.ChainListed | bip138-ll/src/lib.rs:1102-1142 | encoded payloads back to back are all listed, in order, and whatever follows the last of them ends the list |
| CommonPaths.CommonDerivationPathsLoop | bip138-ll/src/lib.rs:390-412 | the nested loops list the 70 paths in order |
| CommonPaths.CommonPathsAre | bip138-ll/src/lib.rs:390-412 | the list holds exactly the paths of the two shapes, each once |
| CommonPaths.FallbackAre | bip138-ll/src/lib.rs:414-420 | the fallback set is the common paths of both coin types |
| Xor.XorLoop | bip138-ll/src/lib.rs:324-330 | the array is filled with the bytewise exclusive or |
| Xor.XorCancels | bip138-ll/src/lib.rs:324-330 | masking twice with one string gives the original back |
| Secrets.DecryptionSecretLoop | bip138-ll/src/lib.rs:346-358 | the secret hashes the ordered set of keys, so order and repetition do not matter |
| SecretProofs.SecretIs | bip138-ll/src/lib.rs:314-358 | the secret is the tagged hash of the keys back to back, each once, in ascending order |
| SecretProofs.SecretDependsOnKeys | bip138-ll/src/lib.rs:346-358 | unless the hash collides on the two inputs, two lists of keys share a secret exactly when they hold the same keys |
| SecretProofs.MaskIs | bip138-ll/src/lib.rs:360-375 | the mask of a key is the tagged hash of that key alone |
| SecretProofs.MaskDependsOnKey | bip138-ll/src/lib.rs:360-375 | unless the hash collides, two keys share a mask exactly when they are the same |
| SecretProofs.TagsDiffer | bip138-ll/src/lib.rs:314-375 | unless the tags collide, the secret and a mask never hash the same input |
| Secrets.IndividualSecrets | bip138-ll/src/lib.rs:377-385 | one masked secret per key, at the key's place |
| Secrets.SecretsDerive | bip138-ll/src/lib.rs:360-385 | masking fails exactly when the secret equals a mask; no masked secret is zero |
| Secrets.PadWithDecoysLoop | bip138-ll/src/lib.rs:917-932 | the loop pads or refuses as specified |
| Secrets.PadAccepts | bip138-ll/src/lib.rs:917-932 | given decoys are accepted exactly when they fill the bucket and are non-zero, distinct and new; the real secrets stay in front |
| Secrets.DecoyOrder | bip138-ll/src/lib.rs:917-932 | the order of the decoys decides neither acceptance nor the encoded set |
| Secrets.Rng.DrawNonce | bip138-ll/src/lib.rs:335-344 | a zero nonce is drawn again, once |
| SecretProofs.NonceIsFromTape | bip138-ll/src/lib.rs:335-344 | the nonce and what is left are the source's bytes from the start, or from the twelfth exactly when the first draw is zero |
| Secrets.Rng.PadIndividualSecrets | bip138-ll/src/lib.rs:899-912 | the drawing loop pads as specified, rejecting zero and repeated draws |
| Secrets.RandomRefinesDecoys | bip138-ll/src/lib.rs:899-932 | random padding equals padding with the draws it accepted |
| SecretProofs.DrawnAreTheTape | bip138-ll/src/lib.rs:899-912 | the decoys are the fresh draws of the source, in order, and it stops at the last one it needs |
| Secrets.PaddedCount | bip138-ll/src/lib.rs:446-456 | the COUNT byte of distinct secrets is the least count of the ladder that holds them |
| Backup.BuildPayloadLoop | bip138-ll/src/lib.rs:812-837 | empty or oversized data and content types without an encoding are refused at the first such item |
| Backup.PayloadDecodes | bip138-ll/src/lib.rs:812-837 | a built payload decodes to its items, `BIP(n)` as the variant named for it |
| Backup.AssembledDecodes | bip138-ll/src/lib.rs:842-896 | an assembled backup decodes to its sections, the lists as sets |
| Backup.KeyHasSlot | bip138-ll/src/lib.rs:842-896 | every supplied key but the NUMS point has its masked secret stored |
| Backup.DecryptV1Loop | bip138-ll/src/lib.rs:943-960 | the linear search returns at the first secret that opens |
| Backup.SearchFinds | bip138-ll/src/lib.rs:943-960 | the slot of a key is found wherever it sorts; a search never ends with another plaintext |
| Backup.BackupOpens | bip138-ll/src/lib.rs:842-960 | for any padding that keeps the real secrets, every supplied key reads the payload, any other key the same or a wrong-key error |
| EndToEnd.DecoysEndToEnd | bip138-ll/src/lib.rs:789-960 | with given nonce and decoys, each supplied key reads exactly the items |
| EndToEnd.RandomEndToEnd | bip138-ll/src/lib.rs:762-960 | the same with drawn nonce and decoys |
| EndToEnd.RandomRefines | bip138-ll/src/lib.rs:762-809 | a random backup equals one with its draws given by hand |
| EndToEnd.StoredPathsEndToEnd | bip138-ll/src/lib.rs:842-896 | the decoded paths are the given ones, less the common ones unless they are stored too |
| EndToEnd.SealOrder | bip138-ll/src/lib.rs:842-896 | order, repetition, the NUMS key and common paths leave no trace in what is sealed |
| EndToEnd.CallerOrderHidden | bip138-ll/src/lib.rs:789-932 | permuting or repeating keys, paths and decoys changes neither the container nor the error |
| EndToEnd.HypothesesCanBeMet | bip138-ll/src/lib.rs:789-960 | for every key, nonce and short text, decoys and a backup exist for which all hypotheses on the primitives hold |
| EncoderProofs.EncoderOutcome | bip138-ll/src/lib.rs:789-896 | the encoder's outcome for every argument with good items: the first reason to refuse in a list of eleven, or success with a container of the size its parts add up to |
| EncoderProofs.BadItemRefused | bip138-ll/src/lib.rs:812-837 | otherwise the first item that is empty, too long or without encoding is the error |
| EncoderProofs.Arguments | bip138-ll/src/lib.rs:842-874 | every argument has the ordered keys, ordered paths and padded text those statements speak of |
| EncoderProofs.RandomOutcome | bip138-ll/src/lib.rs:762-782 | with a random source it succeeds exactly when the source gives a nonce and some number of its draws holds decoys that would be accepted |
| Descriptors.EncryptingKeysLoop | src/descriptor.rs:65-76 | the key expressions kept are those with a derived root other than the NUMS point |
| Descriptors.ExposedKeysLoop | src/descriptor.rs:80-96 | the ordered set of x-coordinates of literal keys and bare single-path xpubs |
| Descriptors.DescriptorWarningsLoop | src/descriptor.rs:103-113 | one warning per key expression left out, NUMS first, in descriptor order |
| Descriptors.CanonKeyPaths | src/descriptor.rs:117-125 | the ordered set of root and path pairs: the same pairs, strictly ascending |
| Descriptors.GatheringOrderHidden | src/descriptor.rs:117-144 | any order the encrypting keys are gathered in gives the same ordered roots and pairs |
| Classification.KeysAreLeaves | src/backend/rust_miniscript.rs:61-68 | the keys of a descriptor are exactly those at its leaves |
| Classification.MayEncryptExactly | src/descriptor.rs:32-43 | a root may encrypt exactly when its expression is an extended key never used at the root itself |
| Classification.ExposesExactly | src/descriptor.rs:80-96 | a coordinate is exposed exactly for literals and for single-path extended keys used at their root |
| Classification.WarningsAre | src/descriptor.rs:98-113 | which warnings a descriptor raises, and no others |
| Classification.BareXpub | src/backend/rust_miniscript.rs:33-36 | a bare xpub does not encrypt, is exposed, and is warned about |
| WalletPolicies.KeySet.AddPlaceholder | src/backend/rust_miniscript/wallet_policy.rs:203-218 | the vector grows by the root if it is new, and the placeholder points at it |
| WalletPolicies.CheckKeyOrder | src/backend/rust_miniscript/wallet_policy.rs:312-327 | accepted exactly when indices first appear as 0, 1, 2 and so on, the counter wrapping at 32 bits |
| WalletPolicies.FromDescriptorLoop | src/backend/rust_miniscript/wallet_policy.rs:331-349 | indexing all roots, then translating the leaves in any visiting order |
| WalletPolicyProofs.PolicyInverts | src/backend/rust_miniscript/wallet_policy.rs:331-358 | conversion succeeds exactly when every key is an extended one with a wildcard, and comes back to the same descriptor exactly when no multipath key has a single path |
| WalletPolicyProofs.SinglePathIsLost | src/backend/rust_miniscript/wallet_policy.rs:221-248 | a multipath key with a single path converts and resolves, but to another descriptor |
| WalletPolicyProofs.OrderDoesNotMatter | src/backend/rust_miniscript/wallet_policy.rs:331-349 | two visiting orders give the same policy |
| WalletPolicyProofs.PolicyRoundTrip | src/backend/rust_miniscript/wallet_policy.rs:331-358 | a template and vector come back exactly when the vector holds distinct bare roots, all used |
| PolicyBackups.Validate | src/policy_backup.rs:108-130 | the nested checks accept exactly the valid documents |
| PolicyBackups.ValidatesExactly | src/policy_backup.rs:108-130 | a document is valid exactly with version 1 and sets of extended keys whose template has wildcards, orders its placeholders and finds its keys |
| PolicyBackups.SeedKeysLoop | src/policy_backup.rs:176-185 | the roots of all entries as an ordered set; none from an invalid document |
| PolicyBackups.ValidatedExposesNothing | src/policy_backup.rs:108-185 | every key of a validated set's descriptor is derived: nothing exposed, nothing disallowed, every encrypting root among the seeding keys |
| PolicyBackups.SetRoundTrip | src/policy_backup.rs:54-71 | a convertible descriptor gives a valid set, which rebuilds it exactly when it is reversible |
| Pools.RetainMembers | src/lib.rs:437-448 | a key stays exactly when its x-coordinate is not exposed |
| PoolProofs.KeysNeverExposed | src/lib.rs:362-457 | in every reachable builder state no key has an exposed x-coordinate |
| PoolProofs.PathsAreKeyPaths | src/lib.rs:395-457 | without paths set by hand, the paths are exactly those of unexposed payload keys |
| PoolProofs.EachRootWarnedOnce | src/lib.rs:437-457 | no root is warned about twice, over any run |
| PoolProofs.DropAbsorbs | src/lib.rs:437-457 | cleaning early changes nothing once more is added and cleaned again |
| PoolProofs.GroupingDoesNotMatter | src/lib.rs:395-427 | payloads at once or one by one give the same key sequence, path set and warning set |
| PoolProofs.PayloadOrderDoesNotMatter | src/lib.rs:409-457 | the order of payloads changes neither key set nor warning set |
| PoolProofs.PayloadOrderKeepsPaths | src/lib.rs:409-457 | nor, without paths set by hand, the path set |
| Documents.DocumentsComeBack | src/lib.rs:622-665 | documents their formats read back are extracted whole and in order |
| Documents.UnparsedSkipped | src/lib.rs:619-682 | an item without a parser takes nothing away from the items around it |
| Documents.FirstFailureDecides | src/lib.rs:622-733 | the first item whose parser fails decides the failure |
| Documents.AllOthersExtracted | src/lib.rs:622-733 | without one, the values of all items with a parser are extracted, in order |
| Documents.DocumentsAreQuiet | src/lib.rs:82-156 | no document brings the warning the builder itself raises |
| Builders.EncryptedBackup.constructor | src/lib.rs:325-346 | a new builder |
| Builders.EncryptedBackup.SetKeys | src/lib.rs:362-366 | replaces the keys, then drops the exposed ones |
| Builders.EncryptedBackup.SetDerivationPaths | src/lib.rs:391-394 | replaces the paths and nothing else |
| Builders.EncryptedBackup.AddKeyPaths | src/lib.rs:428-432 | appends pairs and their paths |
| Builders.EncryptedBackup.DropExposedKeys | src/lib.rs:437-457 | the retain, partition and retain loops: keys, warnings and paths after cleaning |
| Builders.RetainedPaths | src/lib.rs:450-456 | a path stays when a kept key uses it or no dropped key does |
| Builders.EncryptedBackup.SetPayload | src/lib.rs:395-408 | the whole state after one payload, or the failure |
| Builders.EncryptedBackup.SetPayloads | src/lib.rs:409-427 | the whole state after several payloads, or the first failure |
| Builders.EncryptedBackup.Encrypt | src/lib.rs:461-561 | the gates in the order of the source, then the core encoder |
| Builders.EncryptedBackup.SetEncryptedPayload | src/lib.rs:594-618 | decodes a container into the builder, or leaves it as it was |
| Builders.EncryptedBackup.DecryptWith | src/lib.rs:689-733 | the first key that opens decides; every failure of the source |
| CosignerProofs.EveryCosignerAccounted | src/descriptor.rs:65-113 | every key expression at a leaf of any document has its root in the final keys or a warning; a root that may encrypt is kept exactly when no document puts its coordinate on chain |
| CosignerProofs.NoFinalKeyOnChain | src/lib.rs:433-457 | no final key has the coordinate of a literal or of a bare single-path xpub |
| CosignerProofs.OnePayloadAccounted | src/lib.rs:395-408 | the same for a single payload |
| CosignerProofs.CallsStayAccounted | src/lib.rs:391-457 | later calls, short of replacing the keys, lose no account |
| CosignerProofs.PolicyRootsSeed | src/policy_backup.rs:176-185 | wherever a policy document stands among the payloads, each root its descriptors encrypt to is a final key exactly when not seen on chain, and warned about otherwise |
| CosignerProofs.OnePolicyRootsSeed | src/policy_backup.rs:176-185 | a validated policy given alone is accepted, and the same holds |
| PathProofs.PooledPathsAre | src/lib.rs:409-457 | the paths pooled from documents are exactly those some root not on chain was derived at |
| PathProofs.EnvelopePaths | src/lib.rs:461-618 | a reader of the envelope sees the builder's paths, less the common ones unless they are stored |
| PathProofs.OriginPathsTravel | src/lib.rs:409-618 | from documents to envelope: the origin paths of their unexposed roots arrive, and no others |
| PathProofs.HandSetPathsTravel | src/lib.rs:391-394 | paths set by hand arrive in their place |
| PathProofs.PolicyWarnings | src/policy_backup.rs:187-198 | a policy warns of its entries with the NUMS point, and of nothing else |
| BuilderProofs.EncryptGates | src/lib.rs:461-561 | exactly when the builder encrypts, the core's conditions aside |
| BuilderProofs.EnvelopeAccepts | src/lib.rs:594-618 | an envelope is read exactly when the container decodes, and all it says is kept |
| BuilderProofs.DecryptGates | src/lib.rs:689-733 | exactly when decryption succeeds |
| BuilderProofs.FirstKeyDecides | src/lib.rs:711-728 | the first key that opens decides; when none does, nothing is found |
| BuilderProofs.SealedHasRecipient | bip138-ll/src/lib.rs:842-874 | a backup that encrypts has a pooled key that is not the NUMS point |
| BuilderProofs.ItemsOpen | src/lib.rs:461-561 | the encrypted items open for every pooled key and read alike or not at all for any other |
| BuilderProofs.FreshBuilderReads | src/lib.rs:594-733 | a fresh builder with any keys, one of them a recipient's, extracts exactly the sealed items |
| BuilderProofs.DocumentsRoundTrip | src/lib.rs:409-733 | documents given to one builder come back whole and in order from another |
| BuilderProofs.OneDocumentRoundTrip | src/lib.rs:395-733 | a document given alone comes back with its own content type |
| Onion.LevelKeysLoop | src/bin/main.rs:873-891 | the roots of a level's extended keys, derived or bare, as an ordered set |
| Onion.SealLevelSteps | src/bin/main.rs:833-849 | payloads, then paths, then keys, then encryption; no keys is an error |
| Onion.WrapLoop | src/bin/main.rs:285-305 | the loop seals the last level first and then outwards |
| Onion.LevelKeySurvives | src/bin/main.rs:807-849 | only keys the descriptor puts on chain are lost from a level |
| Onion.LevelReads | src/bin/main.rs:807-849 | one level reads back its documents to the holder of one of its keys |
| Onion.PeelGivesLayers | src/bin/main.rs:285-305 | peeling gives what was sealed at each level, read back |
| OnionLayers.OnionPeels | src/bin/main.rs:285-305 | for any list of levels, one surviving key a level shows its note and exactly the next level's bytes, the last its note, the message and the descriptor |
| OnionLayers.LevelKeysAre | src/bin/main.rs:873-891 | the keys of a level are the roots of its extended keys |
| OnionLayers.LevelPathsAre | src/bin/main.rs:893-911 | the paths of a level are their origin paths |
| OnionLayers.LevelSeals | src/bin/main.rs:833-849 | a level is refused for want of keys exactly when it has no extended key; otherwise the builder and the core decide |
| OnionLayers.LevelEnvelope | src/bin/main.rs:833-849 | the envelope of a level tells the origin paths of its keys, less the common ones and those only roots on chain were derived at |
| Onion.TrailerHarmless | src/bin/main.rs:508-520 | a backup written with a newline after it reads the same |
| Collector.PlanLoop | src/signing_devices.rs:224-242 | the ordered map, filled with common paths first, sorted stably by rank |
| Collector.UnlockPathIsFirst | src/signing_devices.rs:418-424 | the unlock path exists: the first common path has purpose 48 |
| Collector.CollectUntil | src/signing_devices.rs:143-222 | calls, xpubs and warnings of exactly the fetches before the stop or the first fatal failure, which is reported |
| CollectorProofs.SortOrders | src/signing_devices.rs:224-242 | the stable sort of an ordered map is strictly ordered by rank, then path |
| CollectorProofs.PlanVisits | src/signing_devices.rs:224-242 | every stored path and every common path of the coin type is visited exactly once |
| CollectorProofs.StoredFirst | src/signing_devices.rs:224-249 | the stored paths come first, in stored order |
| CollectorProofs.OthersGrouped | src/signing_devices.rs:224-270 | after them: those that must be fetched before those that may fail, then preferred purposes, then path order |
| CollectorProofs.PreferredFirst | src/signing_devices.rs:251-270 | among paths taken alike on failure, the purpose the caller lists earlier comes first |
| CollectorProofs.PlanExpects | src/signing_devices.rs:224-242 | stored paths that are not common ask the user on failure; common ones fail the fetch, except at purpose 87 or, on a BitBox02, 44 |
| CollectorProofs.CallsAre | src/signing_devices.rs:143-222 | the caller hears of exactly the keys answered, with their paths, in order |
| CollectorProofs.WarningsAre | src/signing_devices.rs:143-222 | a warning for every fetch refused or timed out, and for no other |
| CollectorProofs.CanFailPurposes | src/signing_devices.rs:363-380 | a common path may fail only at purpose 87, and on a BitBox02 also at 44 |
| CollectorProofs.GivenPathVisited | src/signing_devices.rs:224-242 | a path given to the encoder is asked of the device exactly when it was stored or is not a common path of the other coin type |
| CollectorProofs.OtherCoinPathMissed | src/signing_devices.rs:224-242 | such a path: a common one of the test networks, left out of the backup and not asked of a device on the main network |
| ConcurrentDecryptProofs.AlwaysInvariant | src/bin/main.rs:389-493 | the invariant that ties flag, queue, channel and threads holds in every interleaving |
| ConcurrentDecryptProofs.FinishedHaveSpoken | src/bin/main.rs:403-436 | once both threads have finished, a message has been sent |
| ConcurrentDecryptProofs.NoResultLost | src/bin/main.rs:389-493 | each thread sends at most one message, together at least one, and the main thread never finds the channel closed |
| ConcurrentDecryptProofs.SameAsSequential | src/bin/main.rs:389-493 | without a fatal device failure, every interleaving returns what trying all keys in order returns |
| ConcurrentDecryptProofs.FailureOrDecisive | src/bin/main.rs:389-493 | with one, the result is that failure or the decisive message of a key before it |
| ConcurrentDecryptOutcomes.CanLose | src/bin/main.rs:389-493 | whenever the device fails, on unlocking or at any fetch, some schedule returns that failure |
| ConcurrentDecryptOutcomes.CanWin | src/bin/main.rs:389-493 | whenever a key is decisive, given or fetched, some schedule returns its message |
| ConcurrentDecryptOutcomes.RaceBothWays | src/bin/main.rs:389-493 | for every device failure and every decisive key both happen: the schedule alone decides |
| ConcurrentDecryptOutcomes.OutcomesAre | src/bin/main.rs:389-493 | the results a scenario can return, all of them: the sequential one without a device failure; with one, that failure and the decisive message if there is one |
| ConcurrentDecryptOutcomes.SequentialExactly | src/bin/main.rs:389-493 | every interleaving returns the sequential result exactly when the device does not fail |
| ConcurrentDecryptOutcomes.DeterminedExactly | src/bin/main.rs:389-493 | no two interleavings disagree exactly when the device does not fail or no key is decisive |
| ConcurrentDecryptOutcomes.NothingDecisive | src/bin/main.rs:428-436 | when every key is wrong, or there is none, that is what is reported |
| ConcurrentDecryptProofs.StepsRunOut | src/bin/main.rs:389-493 | every step of every thread uses up fuel |
| ConcurrentDecryptProofs.BoundedRuns | src/bin/main.rs:389-493 | no run takes more than 18 steps and 8 for each planned fetch |
| ConcurrentDecryptProofs.NeverStuck | src/bin/main.rs:389-493 | when no thread can move, all have finished and the main thread has its result |
| ConcurrentDecryptProofs.Completes | src/bin/main.rs:389-493 | every partial run can be completed |
| DecryptCommand.KeyVerdict | src/bin/main.rs:403-436 | on a backup of readable documents a key reads all of them or is wrong |
| DecryptCommand.KeysReached | src/bin/main.rs:437-493 | the keys that can be tried are the given one and those answered before a fatal failure |
| DecryptCommand.HolderGetsDocuments | src/bin/main.rs:377-493 | with a device that never fails, a recipient's key given or answered at any fetch makes every interleaving end with exactly the documents |
| DecryptCommand.HolderAndFailingDevice | src/bin/main.rs:377-493 | with one that fails after answering it, the documents and the failure are the possible results, and both are possible |
| DecryptCommand.StrangersGetNothing | src/bin/main.rs:403-436 | without such a key, every interleaving reports wrong keys, or none |

## Left out

- SHA-256, ChaCha20-Poly1305, secp256k1 and the operating system's randomness: parameters; a random source is a tape of bytes.
- miniscript's parsing and printing of descriptors and templates, UTF-8, and JSON: parameters of `Documents.Formats`; a document comes back when its format reads back what it prints.
- Base64 detection, the older AES-GCM format, the C interface, metadata output: conversions around what is modelled.
- Command arguments, files, log and warning text, parsing of the key file; joining several decrypted documents with newlines.
- Device enumeration, pairing, time limits and display: one fetch is an answer, a refusal or a timeout. Fetching one key from a device for encryption.
- WalletPolicyProofs.PolicyInverts: for fewer than 2^32 distinct key roots; past that the 32-bit index of the source wraps.
- WalletPolicyProofs.PolicyRoundTrip: for fewer than 2^32 placeholders, and for templates as the parser leaves them, every placeholder with a wildcard.
- Offsets.IncrementOffset: only for sums that fit `usize`; the source adds unchecked, and every caller here is proved to stay within.
- Secrets.Rng.PadIndividualSecrets: a tape that runs out blocks; that an arbitrary source ends the loop is not stated.
- Descriptors.EncryptingKeysLoop: which key expressions are kept, not the order in which the source's set holds them; Descriptors.GatheringOrderHidden proves that it leaves no trace.
- Descriptors.CanonKeyPaths: on values; the loops that fill the ordered sets of roots and of pairs are not written out.
- Builders.EncryptedBackup.SetPayload: nothing about the state after a failure, as the source gives the builder up then. The same holds for SetPayloads.
- Builders.EncryptedBackup.DropExposedKeys: the fields are sequences, reassigned; the source edits its vectors in place.
- The plain setters and getters of the builder: the theorems hold for every value of the fields they touch.
- Container.EncodePathLoop: a vector that would outgrow the address space is an error; the source panics.
- ConcurrentDecryptProofs.SameAsSequential: threads are scheduled step by step with a sequentially consistent flag; a device call that never returns is a schedule that never picks the fetch thread again.
- Onion.SealLevelSteps: printing of warnings.
