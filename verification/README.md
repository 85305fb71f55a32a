# Verification model of metaso-p2p

A Dafny model of the stateful and arithmetic kernels of metaso-p2p, with proofs about all inputs and all runs.

- **Published content.** Create, modify and revoke pins arrive unconfirmed from the mempool and confirmed from
  blocks, and are folded into one record per source pin, a pin-to-source map and three identity indexes.
  `PublishedContent` is the fold, `PublishedFields` what a delivery stores field by field, `PublishedAggregator` the class
  whose methods are proved to compute it, `PublishedInvariants` what every run keeps, `PublishedConvergence` the
  convergence of all schedules in which mempool and blocks bring the pins of a chain in one order,
  `PublishedInterleaving` the same for runs that mix any number of chains, `PublishedVisibility` when a record is hidden
  and how a revoke is lost when the orders differ, and `PublishedListing` the listing over index scans. `KeyEncoding`
  holds the byte order of keys and prefix ranges.
- **ID addresses and Bech32.** `Checksum` (the BCH code of BIP-173, section "Checksum", with the constant of BIP-350,
  section "Bech32m"), `Regroup` (bit regrouping), `Positional` (its arithmetic), `IdAddress`, `Bech32` and
  `AddressExamples` (known addresses).
- **Skill services.** `SkillService` and `SkillAggregator` (version chains and ratings), `SkillFields` (what a delivery
  stores), `SkillHistory` (linear histories, replays), `SkillContents` (a service is determined by its accepted pins),
  `SkillIndex` and `SkillGlobals` (secondary indexes), `RatingLedger` (conservation), `RatingTiming` (which ratings
  count).
- **Federation.** `Federation`, `FederationStore`, `PresenceMerge`, `Discovery`, `FederationPuller`, `FederationRuns`
  (discovery loop, pull loop and clock as interleaved atomic steps) and `PullLoop` (the pull loop as a class); rounds of
  both loops are runs of those steps.
- **Smaller pieces.** `RegistryFee` (fee loop of the registry transaction), `MempoolDedupe`, `RawTransaction`.
- **Support.** `Wrappers`, `GoStrings` (Go string functions on ASCII), `PinPaths` (protocol and target in a path),
  `Sorting` (strict sorting of sets), `SkillExamples` (concrete skill-service pins).

Operations that change state in Go are methods of classes with map-valued fields, or methods with loops, each proved
equal to a specification function; the properties are lemmas about those functions and their runs.

## Hypotheses

- A published pin id names one pin. Its two deliveries differ in timestamp, number and host at most. Chain names are
  lower-case and trimmed; chain names and identities contain no colon; confirmed revokes carry a positive timestamp. Store
  writes succeed. Listing also asks for byte strings.
- A skill-service pin id names one operation and one target.
- Address theorems are about ASCII text.
- JSON decoding, derivation of an address from a public key, URL tests, signature checks and the size of a signed
  transaction are arbitrary functions.
- Clocks do not run backwards.
- Discovery, pull loop and store of the federation know this node under one id, which is not empty, and the backoff bounds are
  positive and ordered (`FederationRuns.ValidSettings`).

Where the code falls short of what one may expect of it, the exact condition is proved and an input is given:

- A confirmed revoke does not hide a record that keeps a different pending head, and so may be lost for good
  (`PublishedVisibility.HiddenIff`, `PublishedVisibility.RevokeLost`).
- Listing by identity is not newest first across the epoch (`PublishedListing.NewestFirstIff`, `PublishedListing.OlderListedFirst`).
- A rating that arrives before its service never counts (`RatingTiming.CountedIff`, `RatingTiming.EarlyRatingLost`).
- A service whose profile changes between two saves may stay listed under a former identity (`SkillGlobals.InIndexIff`,
  `SkillGlobals.AlwaysExactIff`, `SkillGlobals.StaleKeyLeft`).
- The merged presence list depends on the order of observations whose keys collide (`PresenceMerge.OrderIrrelevantIff`,
  `PresenceMerge.CollisionReceivable`).
- Of several inscriptions of one transaction only the first reaches the aggregators from the mempool while the time-to-live
  lasts (`MempoolDedupe.SiblingsDropped`, `MempoolDedupe.SecondInscriptionLost`).
- Ties between registry pins are decided by arrival (`Discovery.RoundsSameIff`, `Discovery.TieReceivable`).
- A snapshot with a lifetime beyond the range of a machine integer may have expired on arrival (`Federation.LiveIff`,
  `Federation.LifetimeWraps`).
- The raw transaction parser panics on length prefixes near the end of the integer range (`RawTransaction.PanicsIff`,
  `RawTransaction.FiftyBytesPanic`).
- The fee equations hold within the range of 64-bit integers (`RegistryFee.FundedExactly`, `RegistryFee.FeeCoversRateIff`,
  `RegistryFee.OverflowLosesInputs`, `RegistryFee.OverflowDropsFee`).

`dafny verify dfyconfig.toml` checks the whole project.

## Model

| member | source | states |
|---|---|---|
| `Checksum.ShiftIn` | pkg/idaddress/idaddress.go:309-322 | one round with the five generator tests equals the remainder step on which linearity and injectivity are proved |
| `Checksum.ComputePolymod` | pkg/idaddress/idaddress.go:309-322 | the loop computes the remainder of the whole symbol string |
| `Checksum.StepLinear` | pkg/idaddress/idaddress.go:309-322 | the step is linear over GF(2): the step of a sum is the sum of the steps |
| `Checksum.StepInjective` | pkg/idaddress/idaddress.go:309-322 | two different remainders are never merged by the same next symbol |
| `Checksum.PolymodInjective` | pkg/idaddress/idaddress.go:309-322 | different remainders stay different whatever symbols are appended to both, at any length |
| `Checksum.WindowIsAdded` | pkg/idaddress/idaddress.go:309-322 | up to six symbols enter the remainder as plain digits added to that of as many zeros |
| `Checksum.BurstDetection` | pkg/idaddress/idaddress.go:309-340 | two words of any equal length with equal remainders cannot differ only inside a window of six symbols |
| `Checksum.ChecksumUnique` | pkg/idaddress/idaddress.go:325-340 | a six-symbol suffix passes verification if and only if it is the created checksum, for either constant |
| `Checksum.PackUnpack` | pkg/idaddress/idaddress.go:325-334 | cutting a remainder into six symbols loses nothing |
| `Regroup.ConvertBits` | pkg/idaddress/idaddress.go:257-295 | the masked register loop yields the groups of the bit stream of its input, with padding or with the exact rejection of non-zero or over-long leftovers |
| `Regroup.EmitGroups` | pkg/idaddress/idaddress.go:257-295 | the inner loop keeps emitted groups and register together equal to the bits read so far |
| `Regroup.Finish` | pkg/idaddress/idaddress.go:257-295 | the tail either pads the leftover bits or accepts exactly a leftover shorter than a source group and all zero |
| `Regroup.ConvertBits8to5` | pkg/idaddress/converter.go:56-81 | the unmasked register, wrapping around at 64 bits, returns the same groups as the masked one for all in-range input |
| `Regroup.WidenAfterNarrow` | pkg/idaddress/idaddress.go:257-295 | widening undoes padded narrowing for every data and pair of widths |
| `Regroup.NarrowAfterWiden` | pkg/idaddress/idaddress.go:257-295 | exact widening accepts only what padded narrowing produces, so regrouping is canonical |
| `Positional.PaddedValue` | pkg/idaddress/idaddress.go:257-295 | padded regrouping writes the same number in the other base, shifted by the zero bits that complete the last digit |
| `Positional.BlockSymbols` | pkg/idaddress/idaddress.go:257-295 | five bytes become eight symbols given by their bits, whatever follows |
| `Positional.TwoBytes` | pkg/idaddress/idaddress.go:257-295 | two bytes alone become four symbols, the last completed with four zero bits |
| `IdAddress.ExpandHrp` | pkg/idaddress/idaddress.go:298-307 | position by position: the high three bits of each character of the prefix, a zero, and the low five bits of each |
| `IdAddress.ExpandedPrefix` | pkg/idaddress/idaddress.go:298-307 | the expansion has twice the length and one more, position by position, and that of "idq" is 3 3 3 0 9 4 17 |
| `IdAddress.CreateChecksum` | pkg/idaddress/idaddress.go:325-334 | the six symbols written are the created checksum of prefix and data |
| `IdAddress.EncodeIDAddress` | pkg/idaddress/idaddress.go:86-115 | method form of the encoder, including its errors, on which the round trips are proved |
| `IdAddress.DecodeIDAddress` | pkg/idaddress/idaddress.go:118-179 | method form of the decoder on ASCII text, including the error of each rejected shape |
| `IdAddress.EncodedPayloads` | pkg/idaddress/idaddress.go:86-98 | which payloads are encoded: 20 bytes for versions 0 to 2, 32 for 3 and 5, a multisig of m of n keys of 33 bytes with 1 <= m <= n <= 15 for 4; a version above 5 is the one refused for itself |
| `IdAddress.EncodedRemainder` | pkg/idaddress/idaddress.go:86-115 | an encoded address is "id", the letter of its version, "1" and symbols that bring the remainder of the expanded prefix to 1 |
| `IdAddress.ParseEncoded` | pkg/idaddress/idaddress.go:86-179 | the parser splits every encoded text at its separator into the same version and symbols |
| `IdAddress.DecodeAfterEncode` | pkg/idaddress/idaddress.go:86-179 | decoding an encoded payload gives back version, bytes and address for every payload the encoder accepts |
| `IdAddress.EncodeAfterDecode` | pkg/idaddress/idaddress.go:86-179 | every ASCII text the decoder accepts re-encodes to its lower-case form |
| `IdAddress.AcceptedIff` | pkg/idaddress/idaddress.go:118-179 | an ASCII text is accepted if and only if its lower-case form is the encoding of some version and payload |
| `IdAddress.DecodeRejects` | pkg/idaddress/idaddress.go:118-152 | the first check an address fails names the error, for prefix, format, version, length and characters |
| `IdAddress.NoSeparatorRejected` | pkg/idaddress/idaddress.go:118-128 | a missing separator is the error if and only if the address has the prefix but no separator |
| `IdAddress.AddressesUnique` | pkg/idaddress/idaddress.go:86-179 | no two lower-case addresses carry the same version and bytes |
| `IdAddress.AddressBurst` | pkg/idaddress/idaddress.go:118-179 | two valid lower-case addresses of one version and length cannot differ only within six consecutive characters |
| `Bech32.Bech32Encode` | pkg/idaddress/converter.go:208-256 | method form of the encoder for any ASCII prefix and any version byte, with the constant of the version; versions beyond the character set end at the failed lookup |
| `Bech32.Bech32Decode` | pkg/idaddress/converter.go:83-139 | method form of the decoder, with every rejection |
| `Bech32.DetectCreated` | pkg/idaddress/converter.go:44-54 | a checksum verifies under a constant if and only if it is the one created with that constant, so the two encodings never mix |
| `Bech32.DecodeAfterEncode` | pkg/idaddress/converter.go:83-256 | decoding inverts encoding for every lower-case ASCII prefix, version and program whose address is within the length limit |
| `Bech32.MainAndTestNet` | pkg/idaddress/converter.go:83-256 | for bc and tb, every version and every program of 2 to 40 bytes encodes and decodes back with the constant of its version |
| `Bech32.EncodeAfterDecode` | pkg/idaddress/converter.go:83-256 | every accepted ASCII address carries the constant its version asks for and re-encodes to its lower-case form |
| `Bech32.EncodedRemainder` | pkg/idaddress/converter.go:208-256 | the symbols after the prefix of an encoded address begin with the version and leave the remainder 1 for version 0, 0x2bc830a3 for any other |
| `Bech32.AcceptedRemainder` | pkg/idaddress/converter.go:83-139 | so do those of every accepted address, which has at most 90 characters and a program of 2 to 40 bytes |
| `Bech32.AcceptedIff` | pkg/idaddress/converter.go:83-139 | an ASCII text of at most 90 characters is accepted if and only if its lower-case form is an encoding with a non-empty prefix, and no longer text is |
| `Bech32.DecodeRejects` | pkg/idaddress/converter.go:83-108 | a bad format and a bad character as errors, each if and only if its condition holds |
| `Bech32.SegWitRoundTrip` | pkg/idaddress/converter.go:261-375 | an ID address converted to a SegWit address of either network converts back to its lower-case form if and only if the address does not also pass for a Base58Check one, which is tried first |
| `Bech32.LegacyIsNotSegWit` | pkg/idaddress/converter.go:278-296 | a Base58Check payload never becomes the ID address of a SegWit address |
| `Bech32.ToIdAddressIff` | pkg/idaddress/converter.go:261-321 | a Bitcoin address converts to an ID address if and only if that is the encoding of what it pays to: a key or script hash of a known network byte, or a witness program of version 0 with 20 or 32 bytes or version 1 with 32 on either network |
| `Bech32.ToSegWitIff` | pkg/idaddress/converter.go:323-375 | an ID address of version 2, 3 or 5 converts to the encoding of its payload, of witness version 1 for version 5 and 0 otherwise, with the prefix of the network |
| `AddressExamples.IdExample` | pkg/idaddress/idaddress.go:86-179 | a known witness program as an ID address of version 2, character by character, both ways |
| `AddressExamples.MainExample` | pkg/idaddress/converter.go:83-256 | bc1qw508d6qejxtdg4y5r3zarvary0c5xw7kv8f3t4 is encoded and decoded, with the constant 1 |
| `AddressExamples.ShortExample` | pkg/idaddress/converter.go:83-256 | bc1sw50qgdz25j, version 16, is encoded and decoded, with the constant 0x2bc830a3 |
| `AddressExamples.ConversionExample` | pkg/idaddress/converter.go:261-375 | the Bitcoin address of the first example converts to the ID address of the other and back, when it is no Base58Check address |
| `KeyEncoding.InvertedOrder` | internal/aggregator/publishedcontent/db.go:47-51 | inverted timestamps order by the unsigned bit pattern, descending, are injective and contain no colon |
| `KeyEncoding.InversionReversesIffSameSign` | internal/aggregator/publishedcontent/db.go:47-51 | inversion reverses the order of two timestamps if and only if they have the same sign: the order promised for keys fails across zero |
| `KeyEncoding.TailOrder` | internal/aggregator/publishedcontent/db.go:39-51 | under one prefix keys order by the bit pattern of the timestamp, descending, then by chain and source |
| `KeyEncoding.TailInjective` | internal/aggregator/publishedcontent/db.go:39-51 | the tail of a key determines timestamp, chain and source |
| `KeyEncoding.PrefixParts` | internal/aggregator/publishedcontent/db.go:39-45 | a prefix only matches keys built from the same index, protocol and identity |
| `KeyEncoding.ParseOfTail` | internal/aggregator/publishedcontent/db.go:53-60 | parsing a key tail gives back chain and source |
| `KeyEncoding.PrefixUpperBound` | internal/storage/pebble.go:168-178 | the downward loop on the copied buffer computes the scan bound, none when every byte is 0xff |
| `KeyEncoding.RangeIsPrefix` | internal/storage/pebble.go:144-178 | the scanned range holds a byte-string key if and only if the key starts with the prefix |
| `PublishedAggregator.Aggregator.SourcePinIdFor` | internal/aggregator/publishedcontent/db.go:77-102 | the lookup loop with its cycle guard and its 32-step cap computes the source on which lineage is proved |
| `PublishedAggregator.Aggregator.LoadRecordByAnyPinId` | internal/aggregator/publishedcontent/db.go:104-110 | loads the record of the source of any pin |
| `PublishedAggregator.Aggregator.MapPinToSource` | internal/aggregator/publishedcontent/db.go:135-140 | adds one pin-to-source entry and changes nothing else |
| `PublishedAggregator.Aggregator.DeleteIdentityIndexes` | internal/aggregator/publishedcontent/db.go:162-173 | removes exactly the index keys of the given record |
| `PublishedAggregator.Aggregator.WriteIdentityIndexes` | internal/aggregator/publishedcontent/db.go:142-160 | adds exactly the index keys of the given record |
| `PublishedAggregator.Aggregator.SaveRecord` | internal/aggregator/publishedcontent/db.go:112-133 | the whole new state: old index keys gone, record replaced, new index keys written |
| `PublishedAggregator.Aggregator.ProcessCreatePin` | internal/aggregator/publishedcontent/process.go:33-47 | the whole new state of a create delivery |
| `PublishedAggregator.Aggregator.ProcessVersionPin` | internal/aggregator/publishedcontent/process.go:49-140 | the whole new state of a modify or revoke delivery, with the pending-head merge |
| `PublishedAggregator.Aggregator.ProcessPin` | internal/aggregator/publishedcontent/process.go:12-31 | the whole new state of any delivery, in the form over which all runs are analysed |
| `PublishedFields.ProtocolRead` | internal/aggregator/publishedcontent/process.go:234-271 | the three protocols are read in any case, with a trailing slash or a target |
| `PublishedFields.TargetRead` | internal/aggregator/publishedcontent/process.go:242-262 | the target in the path comes first, then the original id, with or without its "@" |
| `PublishedFields.SourceRead` | internal/aggregator/publishedcontent/db.go:77-102 | a pin without a mapping, or mapped to itself, is its own source, one that leads around in a circle has none |
| `PublishedFields.CreateStored` | internal/aggregator/publishedcontent/process.go:142-232 | a create not stored yet is stored with the fields of its pin: source, head and dates, meta id and address (own or of the creating pin), global identity in its four cases, payload (body before summary, none when blank or binary, JSON or text) |
| `PublishedFields.CreateConfirmed` | internal/aggregator/publishedcontent/process.go:33-47 | a confirmed create takes the place of the pending one, under a different pending head |
| `PublishedFields.CreateRepeated` | internal/aggregator/publishedcontent/process.go:33-47 | any other repetition of a stored create changes nothing |
| `PublishedFields.ModifyStored` | internal/aggregator/publishedcontent/process.go:49-140 | a modify that reaches its record: each identity field its own or inherited, payload its own or the previous one, the other fields of the head; only the identity under another pending head |
| `PublishedFields.RevokeStored` | internal/aggregator/publishedcontent/process.go:90-140 | a revoke that reaches its record hides it and becomes its head unless another head is pending; identity, payload and source stay |
| `PublishedFields.NothingStored` | internal/aggregator/publishedcontent/process.go:12-119 | every other delivery changes nothing |
| `PublishedContent.TargetPinId` | internal/aggregator/publishedcontent/process.go:242-262 | a pin never targets itself |
| `PublishedInvariants.LookupResolves` | internal/aggregator/publishedcontent/db.go:77-102 | under lineage the source of any pin is found within two lookups, so guard and cap never act |
| `PublishedInvariants.IndexKeyInjective` | internal/aggregator/publishedcontent/db.go:27-51 | an index key determines its index, record, identity and sort timestamp |
| `PublishedInvariants.SaveKeepsIndex` | internal/aggregator/publishedcontent/db.go:112-173 | rewriting one record keeps the index set equal to the image of the record table |
| `PublishedInvariants.ProcessKeeps` | internal/aggregator/publishedcontent/process.go:12-140 | every delivery keeps lineage, exact indexes and the hidden flag, and never changes a known source |
| `PublishedInvariants.ReachableStates` | internal/aggregator/publishedcontent/process.go:12-140 | the invariant holds after every sequence of deliveries |
| `PublishedInvariants.IndexExact` | internal/aggregator/publishedcontent/db.go:112-186 | in every reachable state each identity index has a key for every record with that identity, at its current sort timestamp, no stale key, and one record per key |
| `PublishedInvariants.LineageResolution` | internal/aggregator/publishedcontent/db.go:77-140 | in every reachable state each mapping leads to a self-mapped source with a record, found within two steps |
| `PublishedInvariants.SourceNeverChanges` | internal/aggregator/publishedcontent/db.go:77-140 | a source once known is kept by every continuation of every run |
| `PublishedInvariants.RevokeAbsorbing` | internal/aggregator/publishedcontent/process.go:33-140 | a revoked record stays revoked and hidden through any create replay, modify or revoke |
| `PublishedInvariants.RevokeIsTerminal` | internal/aggregator/publishedcontent/process.go:33-140 | over any continuation of any run revoke is terminal, and a record is hidden if and only if its operation is revoke |
| `PublishedInvariants.RevokeHidesUnlessPendingHead` | internal/aggregator/publishedcontent/process.go:90-140 | a revoke that reaches its record hides it if and only if no different pending head is kept, or it was hidden already |
| `PublishedConvergence.FollowShape` | internal/aggregator/publishedcontent/process.go:33-140 | at every point of every schedule in which mempool and blocks bring the pins of the chain in one order, the store is the starting store with the record of the chain in a shape fixed by the numbers delivered and confirmed |
| `PublishedConvergence.ShapeUnique` | internal/aggregator/publishedcontent/process.go:121-140 | once every pin is confirmed the shape leaves nothing of the record open |
| `PublishedConvergence.SchedulesConverge` | internal/aggregator/publishedcontent/process.go:33-140 | any two such schedules, however they interleave, that confirm the whole chain end in the same store, for chains of any length |
| `PublishedConvergence.PendingThenConfirmedConverges` | internal/aggregator/publishedcontent/process.go:33-140 | all pins pending and then all confirmed ends like the run that sees blocks only |
| `PublishedInterleaving.TurnStep` | internal/aggregator/publishedcontent/process.go:33-140 | in a store shared by several chains a delivery moves its own chain one step and leaves every other record and mapping alone |
| `PublishedInterleaving.InterleavedShape` | internal/aggregator/publishedcontent/process.go:33-140 | at every point of every run that mixes the schedules of any number of chains, the store is the starting store with each chain in its shape |
| `PublishedInterleaving.InterleavingsConverge` | internal/aggregator/publishedcontent/process.go:33-140 | any two runs that confirm all chains, mixing their unconfirmed and confirmed deliveries in whatever way, end in the same store |
| `PublishedVisibility.HiddenStep` | internal/aggregator/publishedcontent/process.go:33-140 | one delivery hides a record if and only if it was hidden or the delivery is a revoke that reaches it while no different pending head is kept |
| `PublishedVisibility.HiddenIff` | internal/aggregator/publishedcontent/process.go:33-140 | in every reachable state a record is hidden if and only if some revoke reached it while it kept no different pending head |
| `PublishedVisibility.RevokeLost` | internal/aggregator/publishedcontent/process.go:90-140 | for every create, modify and revoke of it: with create and modify seen in the mempool before blocks bring create, revoke and modify, the record ends visible and confirmed, while blocks alone end with a hidden record |
| `PublishedVisibility.RaceReceivable` | internal/aggregator/publishedcontent/process.go:33-140 | such pins can be received, within the hypotheses of the run theorems |
| `PublishedListing.ScanIdentity` | internal/aggregator/publishedcontent/list.go:83-110 | the scan loop visits the keys of the prefix range in byte order and stops at the limit |
| `PublishedListing.VisitKey` | internal/aggregator/publishedcontent/list.go:83-110 | one scanned key leads to its record, is skipped, or fails as malformed |
| `PublishedListing.ScanRecords` | internal/aggregator/publishedcontent/list.go:14-130 | collects exactly the matching records, sorted by timestamp descending, then by chain and pin id descending |
| `PublishedListing.List` | internal/aggregator/publishedcontent/list.go:14-49 | the answer holds at most Size stored records (20 by default, 100 at most), none hidden unless asked for, each agreeing with every given protocol, chain and identity; more are announced if and only if such a record is left out. By identity they come in the order of their keys; a filter value with a colon lists nothing, or fails on a key whose rest names no chain or source |
| `PublishedListing.NewestFirstIff` | internal/aggregator/publishedcontent/list.go:14-155 | that order is newest first if and only if the matching records have timestamps of one sign |
| `PublishedListing.OlderListedFirst` | internal/aggregator/publishedcontent/list.go:83-110 | two receivable pins after which the only listing by identity has the record dated before the epoch ahead of the newer one |
| `PublishedListing.ListedOrder` | internal/aggregator/publishedcontent/list.go:83-110 | by identity: dates before the epoch first, then latest first, then by chain and source; buzzes are dated by creation, other records by their last change |
| `PublishedListing.CollectedOrder` | internal/aggregator/publishedcontent/list.go:14-49 | without an identity: latest first, then by descending chain, then by descending source |
| `PublishedListing.RevokedNotListed` | internal/aggregator/publishedcontent/list.go:134-155 | a create and its confirmed revoke: the record is listed only to those who ask for hidden ones |
| `PublishedListing.RangeListed` | internal/aggregator/publishedcontent/list.go:83-155 | the hits of the scanned range are exactly the matching records in listing order, and no key fails to parse |
| `PublishedListing.KeyOrder` | internal/aggregator/publishedcontent/db.go:39-51 | byte order of index keys is listing order for records under one prefix, for all timestamps |
| `PublishedListing.ScanLists` | internal/aggregator/publishedcontent/list.go:14-110 | scanning one more than the page size yields the specified page and the right announcement |
| `PublishedListing.ListingUnique` | internal/aggregator/publishedcontent/list.go:14-155 | store and filter determine the listing |
| `PublishedListing.ReachableListable` | internal/aggregator/publishedcontent/list.go:14-155 | every store reached by well-named byte-string pins meets what the listing theorems ask for |
| `PublishedListing.NoProtocolNoKeys` | internal/aggregator/publishedcontent/list.go:70-110 | without a protocol the identity scan finds nothing |
| `SkillAggregator.Aggregator.LoadServiceByAnyPinId` | internal/aggregator/skillservice/db.go:134-147 | loads the service of a source pin or of a mapped version |
| `SkillAggregator.Aggregator.SaveService` | internal/aggregator/skillservice/db.go:149-214 | the whole new state: stale index keys gone, service replaced, index keys written, those by global identity with the profile found at that time |
| `SkillAggregator.Aggregator.UniqueNonEmpty` | internal/aggregator/skillservice/db.go:224-242 | the first spelling of each non-empty identity, and nothing else |
| `SkillAggregator.Aggregator.ProcessServiceCreate` | internal/aggregator/skillservice/process.go:73-99 | the whole new state of a service create |
| `SkillAggregator.Aggregator.ProcessServiceModify` | internal/aggregator/skillservice/process.go:101-161 | the whole new state of a service modify |
| `SkillAggregator.Aggregator.ProcessServiceRevoke` | internal/aggregator/skillservice/process.go:163-196 | the whole new state of a service revoke |
| `SkillAggregator.Aggregator.ProcessServicePin` | internal/aggregator/skillservice/process.go:49-71 | dispatch by operation |
| `SkillAggregator.Aggregator.BumpRatingAggregate` | internal/aggregator/skillservice/rating.go:248-266 | adds one rate to one aggregate |
| `SkillAggregator.Aggregator.ProcessRatingPin` | internal/aggregator/skillservice/rating.go:107-157 | the whole new state of a rating delivery |
| `SkillAggregator.Aggregator.ProcessPin` | internal/aggregator/skillservice/process.go:23-47 | the whole new state of any delivery, in the form over which all runs are analysed |
| `SkillFields.ProtocolRead` | internal/aggregator/skillservice/process.go:200-206 | the two protocols are read in any case, with a trailing slash or a target |
| `SkillFields.TargetRead` | internal/aggregator/skillservice/process.go:235-252 | the target in the path comes first, then the original id, with or without its "@" |
| `SkillFields.CreateStored` | internal/aggregator/skillservice/process.go:73-97 | a create with a named declaration that is not stored yet is stored with the fields of its pin |
| `SkillFields.FoundIff` | internal/aggregator/skillservice/db.go:134-144 | a service is found by its own id or by an id mapped to it |
| `SkillFields.ModifyStored` | internal/aggregator/skillservice/process.go:101-161 | a modify of the current version becomes it: provider fields its own or inherited, declaration its own, creation time kept, revoke kept |
| `SkillFields.RevokeStored` | internal/aggregator/skillservice/process.go:163-197 | a revoke of the current version becomes it, moves the update time when dated, and changes nothing else |
| `SkillFields.RatingStored` | internal/aggregator/skillservice/rating.go:107-216 | a rating pin is stored as decoded, with its rater, and its rate is added to the service it names when that is known on its chain |
| `SkillFields.NothingStored` | internal/aggregator/skillservice/process.go:23-233 | every other delivery changes nothing |
| `SkillFields.GlobalIdsRead` | internal/aggregator/skillservice/db.go:216-242 | a service is listed under the identity it carries and under that of its profile when they differ by more than case |
| `SkillHistory.ReachableStates` | internal/aggregator/skillservice/process.go:73-196 | after every sequence of deliveries each service has a linear history |
| `SkillHistory.HistoriesLinear` | internal/aggregator/skillservice/process.go:73-196 | the accepted pins of each service form a repeat-free path from its create pin to its current version, each targeting the one before |
| `SkillHistory.AcceptedIsNew` | internal/aggregator/skillservice/process.go:101-196 | an accepted version occurs on no path yet |
| `SkillHistory.ReplayHarmless` | internal/aggregator/skillservice/process.go:73-196 | delivering an accepted pin again leaves the whole store unchanged |
| `SkillHistory.AcceptedStays` | internal/aggregator/skillservice/process.go:73-196 | an accepted pin stays on a path through every continuation |
| `SkillHistory.ReplayAtAnyTime` | internal/aggregator/skillservice/process.go:73-196 | a pin accepted once has no effect when its id is delivered again after any further deliveries |
| `SkillHistory.ServicesStay` | internal/aggregator/skillservice/process.go:73-196 | over any continuation of any run creation times never change and revoke is terminal |
| `SkillContents.ServiceIsItsHistory` | internal/aggregator/skillservice/process.go:73-196 | in every reachable store each service is what its accepted pins amount to: source and creation time of the first, version of the last, declaration and each provider field of the latest that gave one, update time of the latest dated one, revoked as soon as one revokes |
| `SkillContents.DescribesVersion` | internal/aggregator/skillservice/process.go:101-196 | one more accepted modify or revoke keeps a service what its accepted pins amount to |
| `SkillContents.DescribesCreated` | internal/aggregator/skillservice/process.go:73-99 | a created service is what its create pin says |
| `SkillContents.AcceptedWrites` | internal/aggregator/skillservice/process.go:73-196 | an accepted delivery writes the service it is accepted for and no other |
| `SkillIndex.SaveKeepsIndex` | internal/aggregator/skillservice/db.go:149-214 | rewriting one service keeps the provider and update-time indexes equal to the image of the services |
| `SkillIndex.IndexExact` | internal/aggregator/skillservice/db.go:149-214 | the same equality in every reachable store |
| `SkillIndex.IndexSays` | internal/aggregator/skillservice/db.go:149-214 | entry by entry in every reachable store: by provider, by provider and update time, by update time |
| `RatingLedger.Conservation` | internal/aggregator/skillservice/rating.go:107-157 | in every reachable store each aggregate is the exact total and number of the stored rating pins resolved to its service |
| `RatingLedger.AverageInRange` | internal/aggregator/skillservice/rating.go:84-105 | in every reachable store Count <= Sum <= 5 * Count and Count is positive |
| `RatingLedger.RatingReplay` | internal/aggregator/skillservice/rating.go:107-157 | a stored rating pin has no effect when delivered again |
| `RatingLedger.RatingNormalised` | internal/aggregator/skillservice/rating.go:107-157 | a rating of any accepted version counts for the service, once |
| `SkillGlobals.InIndexIff` | internal/aggregator/skillservice/db.go:149-222 | over any run, each delivery with the profiles of its time: a key by global identity is in the indexes if and only if some delivery wrote it and no later one cleared it |
| `SkillGlobals.CurrentPresent` | internal/aggregator/skillservice/db.go:149-222 | the keys of every service as it is, under the profiles of its last save, are never missing |
| `SkillGlobals.ExactIff` | internal/aggregator/skillservice/db.go:149-222 | a reachable store has no stale key if and only if every key left behind is that of its service under the profiles of its last save |
| `SkillGlobals.AlwaysExactIff` | internal/aggregator/skillservice/db.go:149-222 | the indexes are exact in every state of a run if and only if at each save every identity of the service at its last save is still found, or is rewritten with the same update time |
| `SkillGlobals.GlobalsExact` | internal/aggregator/skillservice/db.go:149-222 | with profiles that do not change the indexes by global identity hold the keys of the services as they are, in every reachable store |
| `SkillGlobals.StaleKeyLeft` | internal/aggregator/skillservice/db.go:149-222 | a create received while the profile of its provider is found and a modify received while it is not: the modified service stays listed under the identity of the profile and its old update time |
| `RatingTiming.CountedIff` | internal/aggregator/skillservice/rating.go:107-157 | a stored rating counts, now and after any further deliveries, if and only if the pin it names was an accepted version of a service at the delivery that stored it |
| `RatingTiming.EveryRatingDecided` | internal/aggregator/skillservice/rating.go:107-157 | every stored rating was stored by one delivery, which decides whether it counts |
| `RatingTiming.StoredAsDecoded` | internal/aggregator/skillservice/rating.go:107-216 | a stored rating is, now and after any further deliveries, what the body of the pin that stored it was decoded to: its rate of one to five, its service, comment and payment |
| `RatingTiming.RatingsStay` | internal/aggregator/skillservice/rating.go:107-157 | a stored rating is kept unchanged by every continuation |
| `RatingTiming.EarlyRatingLost` | internal/aggregator/skillservice/rating.go:107-157 | a rating, then its service, then the rating again: stored, but never counted |
| `MempoolDedupe.Engine.EvictSeen` | internal/indexer/engine.go:276-312 | the eviction loop drops exactly the entries older than the time-to-live |
| `MempoolDedupe.Engine.FilterSeenMempoolPins` | internal/indexer/engine.go:276-312 | the pins passed on and the memory left by one call |
| `MempoolDedupe.SeenWithinMeansDelivered` | internal/indexer/engine.go:276-312 | over any run a key is remembered if and only if an earlier call delivered it within the time-to-live |
| `MempoolDedupe.PassesIff` | internal/indexer/engine.go:276-312 | a pin passes if and only if it has no key, or is the first of its key in its batch and no call delivered the key within the time-to-live |
| `MempoolDedupe.DeliversIff` | internal/indexer/engine.go:276-312 | a call delivers a key if and only if the key appears and was not delivered within the time-to-live; a non-positive one means once for good |
| `MempoolDedupe.DeliveriesApart` | internal/indexer/engine.go:276-312 | two deliveries of one key are more than the time-to-live apart |
| `MempoolDedupe.PassedIsSubsequence` | internal/indexer/engine.go:276-312 | the output is a subsequence of the input |
| `MempoolDedupe.KeyRead` | internal/indexer/engine.go:314-351 | the key of a pin: its genesis transaction; else the part of its id before the first colon, or before the last "i" and digits; else the first transaction of the batch that matches the id; else the id |
| `MempoolDedupe.InscriptionsShareKey` | internal/indexer/engine.go:314-351 | all inscription pins of a transaction share its id as their key |
| `MempoolDedupe.SiblingsDropped` | internal/indexer/engine.go:276-351 | once an inscription of a transaction has passed, every other one of that transaction is dropped, in its batch and in later ones within the time-to-live |
| `MempoolDedupe.SecondInscriptionLost` | internal/indexer/engine.go:276-351 | two inscriptions of one transaction polled together and again: only the first ever passes while the time-to-live lasts |
| `RawTransaction.DecodeVarInt` | internal/chain/mvc/indexer.go:384-411 | a decoded prefix consumes between one byte and the buffer and its value fits a machine integer |
| `RawTransaction.DecodeLocal` | internal/chain/mvc/indexer.go:384-411 | decoding a prefix depends on the bytes it consumes and on no others |
| `RawTransaction.PrefixRead` | internal/chain/mvc/indexer.go:384-411 | value and size of every length prefix, byte by byte: one, two, four or eight bytes, lowest first, and none when bytes are missing or the value exceeds a machine integer |
| `RawTransaction.ReadInputs` | internal/chain/mvc/indexer.go:323-346 | the input loop equals the recursive parse of that many inputs |
| `RawTransaction.ReadOutputs` | internal/chain/mvc/indexer.go:357-375 | the output loop equals the recursive parse of that many outputs |
| `RawTransaction.ParseRawTx` | internal/chain/mvc/indexer.go:304-382 | a byte string is accepted if and only if it is a layout of some transaction, and then its fields are returned; the parser panics if and only if a script length takes the index past a machine integer |
| `RawTransaction.ParseAssembled` | internal/chain/mvc/indexer.go:304-382 | every layout of a transaction, with any admissible length prefixes, parses to its fields |
| `RawTransaction.ParsedIsAssembled` | internal/chain/mvc/indexer.go:304-382 | what is accepted is consumed whole: it is the ordered concatenation of the returned fields and their prefixes |
| `RawTransaction.ParseIff` | internal/chain/mvc/indexer.go:304-382 | both directions in one statement |
| `RawTransaction.PanicsIff` | internal/chain/mvc/indexer.go:323-375 | the parser panics if and only if the bytes are those of a transaction up to some script and the length prefix of that script takes the index past the range of a machine integer, so that the sum wraps around and passes the length check |
| `RawTransaction.FiftyBytesPanic` | internal/chain/mvc/indexer.go:323-346 | a buffer of fifty bytes on which it panics |
| `RawTransaction.LayoutsUnambiguous` | internal/chain/mvc/indexer.go:304-382 | no byte string is a layout of two different transactions |
| `RawTransaction.ShortestPrefixDecodes` | internal/chain/mvc/indexer.go:384-411 | the canonical prefix of every length decodes to it |
| `RawTransaction.ShortestPrefixIsShortest` | internal/chain/mvc/indexer.go:384-411 | no accepted prefix of the same length value is shorter |
| `RawTransaction.ParseSerialised` | internal/chain/mvc/indexer.go:304-382 | parsing inverts the canonical serialisation of every transaction with at least one input and one output |
| `RegistryFee.SumInputs` | internal/federation/mvc_tx.go:107-127 | the totalling loop: all outputs are usable and the total wraps at 64 bits, or the first refused output names the error |
| `RegistryFee.BuildRegistryTx` | internal/federation/mvc_tx.go:96-181 | the attempt loop with every early error, on which the fee theorems are proved |
| `RegistryFee.AttemptStep` | internal/federation/mvc_tx.go:145-178 | whatever the signed size, neither change nor fee of an attempt wraps around, the fee paid is the fee required, and a failed attempt requires the minimum fee of the size it saw |
| `RegistryFee.FundedExactly` | internal/federation/mvc_tx.go:107-178 | on every success, for every signer: change and fee make up exactly what is left after the owner output, change covers the dust limit, the size is that of the signed transaction; inputs equal owner output, change and fee if and only if inputs less owner output fit a machine integer |
| `RegistryFee.FeeAtMostLargest` | internal/federation/mvc_tx.go:145-178 | the fee is at most rate times the largest signed size |
| `RegistryFee.FeeCoversRateIff` | internal/federation/mvc_tx.go:145-178 | a request pays its rate under every signer with sizes in a range if and only if it cannot be funded or no size of the range has a fee that overflows into an amount the request can pay |
| `RegistryFee.CheatedUnderpays` | internal/federation/mvc_tx.go:145-178 | each such size, signed constantly, is funded below its rate |
| `RegistryFee.ExhaustedMeansTwentySizes` | internal/federation/mvc_tx.go:145-181 | the attempts are used up only when the signer gives twenty different sizes |
| `RegistryFee.NeverExhausted` | internal/federation/mvc_tx.go:145-181 | with signed sizes that span at most eighteen bytes the attempts are never used up |
| `RegistryFee.NineteenBytesExhaust` | internal/federation/mvc_tx.go:145-181 | a span of nineteen bytes can use them up, so the bound is the best one |
| `RegistryFee.OverflowLosesInputs` | internal/federation/mvc_tx.go:107-178 | a request whose inputs overflow is funded for a fraction of them |
| `RegistryFee.OverflowDropsFee` | internal/federation/mvc_tx.go:145-178 | a request whose rate times size overflows is funded without a fee |
| `PresenceMerge.AddObservation` | internal/federation/store.go:327-356 | one observation is merged into the entry of its key, or starts it |
| `PresenceMerge.FoldSummarises` | internal/federation/store.go:280-356 | the entry of a key holds the number, the reporters, the latest sighting and the earliest known connection of the observations with that key, and the name of the first |
| `PresenceMerge.AggregatePresence` | internal/federation/store.go:280-325 | the loops return the merged list, the number of observations and the number of identities |
| `PresenceMerge.SortedItems` | internal/federation/store.go:303-318 | the list is sorted and holds one item per entry, whatever order the map is walked in |
| `PresenceMerge.ItemMeaning` | internal/federation/store.go:280-365 | what an item says of the observations of its identity and type: earliest non-zero connection, latest sighting, number and sorted reporters |
| `PresenceMerge.ItemOrder` | internal/federation/store.go:310-318 | the latest sighting first, then by identity, then by type |
| `PresenceMerge.NodeNames` | internal/federation/store.go:327-331 | a node without a name reports as "local", any other under its name |
| `PresenceMerge.OneItemEach` | internal/federation/store.go:280-365 | every observed identity and type has exactly one item |
| `PresenceMerge.SourcesSumToConnections` | internal/federation/store.go:280-325 | the sources of the items add up to the number of observations, colliding keys or not |
| `PresenceMerge.MergedUnique` | internal/federation/store.go:310-318 | the observations determine the list |
| `PresenceMerge.FoldPermuted` | internal/federation/store.go:280-356 | collision-free observations fold to the same entries in every order |
| `PresenceMerge.OrderIrrelevantIff` | internal/federation/store.go:280-365 | the list is independent of the order of the observations if and only if no two observations of different identity or type share a key |
| `PresenceMerge.CollisionReceivable` | internal/federation/store.go:327-332 | two observations of different identity and type that collide, so that the list depends on which comes first |
| `PresenceMerge.PlainIdentities` | internal/federation/store.go:327-332 | identities without a zero byte never collide |
| `FederationStore.Store.constructor` | internal/federation/store.go:69-93 | an empty store under the given node id, or the default one |
| `FederationStore.Store.UpsertPeer` | internal/federation/store.go:114-123 | records a peer under its id, ignores one without id |
| `FederationStore.Store.RemovePeer` | internal/federation/store.go:126-136 | removes the peer and its snapshot |
| `FederationStore.Store.UpsertSnapshot` | internal/federation/store.go:177-186 | records a snapshot under its node id, ignores one without id |
| `FederationStore.Store.ActivePeers` | internal/federation/store.go:155-174 | exactly the unexpired peers, sorted by node id |
| `FederationStore.Store.ActiveSnapshots` | internal/federation/store.go:240-267 | exactly the unexpired snapshots of known, unexpired peers other than this node, sorted by node id |
| `FederationStore.Store.GlobalOnline` | internal/federation/store.go:205-267 | the merge of local entries and active snapshots, and the numbers reported with it; active are the snapshots of known peers other than this node while the clock is at most the end of the validity of the peer, if any, and the generation of the snapshot plus a thousand times its ttl |
| `Federation.LiveIff` | internal/federation/store.go:386-389 | a snapshot whose lifetime is a machine integer is live if and only if the clock is at most its generation plus a thousand times its ttl |
| `Federation.LifetimeWraps` | internal/federation/store.go:386-389 | a ttl beyond that range, for which the snapshot is expired from the epoch on |
| `FederationStore.ShownIff` | internal/federation/store.go:240-267 | in terms of the clock, when the snapshot of a peer is shown |
| `FederationStore.PresenceSources` | internal/federation/store.go:204-325 | every source named in global presence is this node for a local entry, or a known, unexpired peer other than this node whose unexpired snapshot holds the entry |
| `FederationStore.ShownIsCounted` | internal/federation/store.go:204-325 | each entry of a shown snapshot is counted in the item of its key |
| `Discovery.CandidatesAcceptable` | internal/federation/discovery.go:265-331 | a candidate is another node than this one, owns its id, and is marked for removal when revoked or expired |
| `Discovery.CandidateIff` | internal/federation/discovery.go:265-395 | a pin is a candidate if and only if it is a create, modify or revoke pin on the chain mvc whose content decodes to another node of the network that speaks the protocol, has the capability, may be reached and owns its id; it is for removal if and only if revoked or expired |
| `Discovery.CollectCandidates` | internal/federation/discovery.go:146-156 | the loop keeps the winner of each node |
| `Discovery.NewestKept` | internal/federation/discovery.go:146-156 | a node has a winner if and only if it has a candidate, and no candidate of it is newer than the winner |
| `Discovery.KeptIsLatest` | internal/federation/discovery.go:387-395 | no candidate of a node has a later timestamp than the one kept, none of its timestamp a later publication, none of both a greater pin id |
| `Discovery.FirstNewestKept` | internal/federation/discovery.go:146-156 | among newest candidates of equal rank the first one wins |
| `Discovery.RemoveAndCollect` | internal/federation/discovery.go:164-174 | the loop over the sorted ids removes and collects |
| `Discovery.DiscoverOnce` | internal/federation/discovery.go:136-185 | the accepted list and the store changes of one round |
| `Discovery.AcceptedNodes` | internal/federation/discovery.go:136-185 | the accepted list is sorted without repetition, within the cap, never holds this node, and holds the newest word on each of its nodes |
| `Discovery.OrderIrrelevantIff` | internal/federation/discovery.go:136-185 | what becomes of the nodes is independent of the order of the pins if and only if all newest candidates of a node agree |
| `Discovery.TieReceivable` | internal/federation/discovery.go:136-185 | a registration and a revocation listed under one pin id and timestamp, whose order decides the outcome of the round |
| `Discovery.NoTiesAgree` | internal/federation/discovery.go:387-395 | they agree when no two candidates of a node tie on timestamp, publication and id |
| `Discovery.RoundDeterministic` | internal/federation/discovery.go:136-185 | if all newest candidates agree, accepted list and store changes are the same for every order of the pins |
| `Discovery.RoundsSameIff` | internal/federation/discovery.go:136-185 | accepted list and store changes are the same for every order of the pins if and only if all newest candidates of a node agree on its removal, and on its contents when the cap lets it through |
| `Discovery.UncappedRoundsSameIff` | internal/federation/discovery.go:136-185 | when the cap does not bite they are the same if and only if all newest candidates of a node mean the same for it |
| `Discovery.LatestDecides` | internal/federation/discovery.go:136-185 | when one candidate of a node has a later timestamp than the others, the node is removed if and only if that candidate is for removal, and otherwise recorded when the cap does not bite |
| `Discovery.LaterRevokeRemoves` | internal/federation/discovery.go:136-185 | a registration and a later revocation, listed in either order: the node is removed and not accepted |
| `Discovery.RoundLeaves` | internal/federation/discovery.go:136-185 | after a round a node for removal has neither peer nor snapshot, an accepted node is the peer of its id, and every other node is as it was |
| `FederationPuller.ValidateSnapshot` | internal/federation/puller.go:249-272 | a snapshot is accepted if and only if it is well formed, unexpired, verified for the peer and supersedes the stored one; otherwise the first failing check is named; in range, unexpired means that the clock in milliseconds is at most its generation plus a thousand times its ttl |
| `FederationPuller.BackoffDelay` | internal/federation/puller.go:302-315 | the doubling loop gives the smaller of the maximum and base times two to the failures minus one, without exceeding the maximum on the way |
| `FederationPuller.DelayGrows` | internal/federation/puller.go:302-315 | delays stay within the configured bounds and never shrink as failures repeat |
| `FederationPuller.DelayDoubles` | internal/federation/puller.go:302-315 | the first delay is the base, every further one twice the one before, up to the maximum |
| `FederationRuns.StepKeeps` | internal/federation/puller.go:136-272 | every atomic step of discovery loop, pull loop and clock keeps the invariant |
| `FederationRuns.ReachableStates` | internal/federation/puller.go:136-272 | in every reachable state each stored snapshot was verified under a key whose address is its node id, and each peer owns its id |
| `FederationRuns.DiscoveryIsRun` | internal/federation/discovery.go:136-185 | a round of discovery is a run of the atomic steps that changes the store as the round does |
| `FederationRuns.ReplacedOnlyByNewer` | internal/federation/puller.go:249-272 | a step replaces an unexpired snapshot only by a verified one of strictly greater sequence, although validation and storing are separate steps |
| `FederationRuns.SequencesGrow` | internal/federation/puller.go:193-272 | along a run in which the snapshot of a node is neither removed nor expired its sequence only grows, and an equal one means the same snapshot |
| `FederationRuns.PresenceIsAuthentic` | internal/federation/store.go:204-266 | in every reachable state global presence names only this node and known, unexpired peers with authentic, unexpired snapshots that hold the entry |
| `FederationRuns.NotAskedEarly` | internal/federation/puller.go:274-300 | a peer that failed is not asked again before its time, whatever steps interleave |
| `FederationRuns.FailureBacksOff` | internal/federation/puller.go:285-315 | after a failure the peer is left alone for the doubled delay |
| `PullLoop.Puller.PeerEligible` | internal/federation/puller.go:274-283 | eligible if and only if no failure is on record or its time has come |
| `PullLoop.Puller.RecordFailure` | internal/federation/puller.go:285-293 | one more failure and the time of the next try |
| `PullLoop.Puller.ClearFailure` | internal/federation/puller.go:295-300 | forgets the failures of the peer |
| `PullLoop.Puller.PullPeer` | internal/federation/puller.go:193-230 | a snapshot that passes validation against the stored one is stored, anything else is a failure |
| `PullLoop.Puller.PullOnce` | internal/federation/puller.go:136-160 | the loop over the active peers has the effect of the specified round, failures listed in order |
| `PullLoop.PeerOutcome` | internal/federation/puller.go:136-160 | what one peer comes to in a round: nothing for this node, a nameless, expired or waiting peer; a valid answer stored and the failures forgotten; anything else one failure more and the wait that goes with it |
| `PullLoop.RoundIsRun` | internal/federation/puller.go:136-160 | a round is a run of the atomic steps |
| `PullLoop.RoundKeeps` | internal/federation/puller.go:136-160 | so a round keeps the invariant of all runs |

## Left out

- HTTP, sockets, RPC, tickers and goroutines: only the atomic steps they trigger are modelled.
- ECDSA, SHA-256, Base58, base64, JSON and script building: oracles, or left out.
- Conversion to legacy (Base58) and Dogecoin addresses, and the batch converter: no logic beyond the codecs modelled.
- IdAddress.DecodeIDAddress: ASCII text only; outside ASCII the decoder cuts code points to bytes.
- Bech32.Bech32Encode: ASCII prefixes only; the prefixes the converter passes are.
- Bech32.Bech32Decode: ASCII text only.
- The rejection of mixed case that BIP-173 asks for: the decoders lower-case first.
- Regroup.ConvertBits8to5: stated for symbols in range only; its callers never pass others.
- Failures of store writes, and the Pebble store below its sorted-key interface.
- The byte form of record keys and of pin-to-source keys: they are structured values here; index keys are byte strings.
- PublishedInterleaving.InterleavingsConverge: mempool and blocks bring the pins of a chain in one order (with another order stores may differ, see PublishedVisibility.RevokeLost); excludes unconfirmed deliveries of a pin after its confirmation, which mark the record pending again.
- PublishedConvergence.SchedulesConverge: the same restriction, for one chain without deliveries of others between; PublishedInterleaving.InterleavingsConverge has them.
- PublishedConvergence.FollowShape: the same; PublishedInterleaving.InterleavedShape has the deliveries of other chains.
- PublishedAggregator.Aggregator.ProcessVersionPin: modify and revoke share one course here, with the branches in which they differ.
- Skill-service listing and homepage assembly; the profile lookup is an arbitrary function.
- SkillAggregator.Aggregator.BumpRatingAggregate: sums are unbounded integers; overflow of 64 bits is not modelled.
- RatingLedger.Conservation: sums are unbounded integers; 64-bit overflow of a rating sum is not modelled.
- RawTransaction.ParseRawTx: buffers are at most half the range of a machine integer.
- RegistryFee.BuildRegistryTx: starts at the fee rate check; key, network, operation and content checks and the transaction itself are not part of this model.
- FederationRuns.SequencesGrow: an expired snapshot may be followed by any sequence, so expiry ends the comparison.
- FederationRuns.NotAskedEarly: times are unbounded integers.
- Discovery.OrderIrrelevantIff: about what becomes of each node before the cap; Discovery.RoundsSameIff is about the outcome of the round under any cap.
- Discovery.DiscoverOnce: the cap limits the accepted list of a round, it is not a bound on the store, and none is claimed.
- Pagination of presence lists, payload fields that are only copied, group chat, and the block scan of the indexer.
