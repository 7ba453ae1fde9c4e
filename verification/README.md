# A Dafny model of ASImposium's ledger, codec and command line

The project models the parts of the repository on which its promises of integrity
rest, and proves what those parts keep, over every input and every run.

**Canonical JSON** (`cli/src/canonical_json.rs`). `CanonicalJson` holds the printer, as
methods that append to a mutable buffer and as the function they are proved against;
`KeyOrder` the order of keys by UTF-16 code unit; `NumberText` and `Decimals` the four
number layouts. `JsonReader` is the inverse, `JsonIdentity` says when two values have
one text, and `NumberSpelling` and `CanonicalSpelling` which of the texts that read back as a
value is printed. A double enters as its sign, shortest decimal digits and exponent.

**The ledger's chain** (`apps/wire/src/krater`, `scripts/verify-export.ts`,
`scripts/assemble-ledger-backup.ts`). `Digests` has the records that are hashed and their
canonical texts; SHA-256 and the Ed25519 check are parameters, so every claim about a digest ends in
"equal, or here is a collision", and `Digests.TextsCollide` turns such a collision into two
different texts with one SHA-256; `RecordFields` reads the records back from those texts.
`ChainVerifier` models the range verifier, `RangeGrammar`, `PublicGrammar` and `FieldShapes`
give both grammars as printing and the shapes of their fields, `LedgerHistory` chains as
histories. `OfflineVerifier`, `OfflineLoops` and `OfflineTheorems` have the offline verifier
with both of its branches, `VerdictParts` and `VerdictMeaning` its whole answer,
`SignedMessages` the text that is signed. `BackupAssembly`, `AssemblyTheorems` and
`BackupMeaning` have the recovery of an export from verified segments, `SegmentCuts` the round
trip from a chain through any cut of it and back.

**The cost model** (`scripts/verify-cost-model.ts`). `CostModel` has the exact workload
arithmetic, the seven findings and the resolution, `CostErrors` the rounding and the error of
a refused input, `CostCeilings` the prices under which a ceiling's verdict is antitone in the
load; `ReceiptReader` the descriptor and its reading
loop, over a file system that may read short or fail at any call.

**The command line** (`cli/src/lib.rs`). `Routes` has the origin and path checks, the
dot-segment removal of section 5.2.4 of RFC 3986 and the write routes, over a URL parser that
is a parameter; `EcmaText` trimming;
`WriteBodies` the bodies that are built and encoded, and `Utf8Sizes` their size; `WriteRequests`
one write up to the request it sends; `UrlChecks` what each of its checks looks for and which
error comes first.

**The gauntlet and the fixture** (`e2e/gauntlet`, `scripts/smoke-agent-fixture-origin.py`).
`Scorecard` has the median and the pass bar, `StreamBounds` the two stream loops,
`FixtureLedger` the fixture's ledger as a class whose handlers run under one lock, and
`FixtureReplies` what it answers, said from the requests of a run alone.

Code that updates state is modelled by methods with loops (`WriteString`, `RunEvents`,
`JoinSegments`, `PinAll`, `ReadBody`, `TailOf`, the handlers of `Ledger`), each proved equal
to a function of its inputs or of the old state; the properties are lemmas about those
functions.

## What the code does not do

Some expected properties are false of the code. Each has its exact condition here.

- The manifest of a backup accepts titles of 161 to 500 UTF-16 units, blank titles, dates
  that do not exist and a chain whose last segment carries no terminal checkpoint. The
  export grammar does not, so such a backup passes every segment and the terminal check
  and is refused by the final preflight: `RefusedBackups` has one of each,
  `RefusedExactly` and `AssembledExactly` the exact condition.
- `tailOf` keeps the whole last chunk when that chunk alone exceeds the cap. The tail is the
  last cap bytes exactly when the last chunk is at most the cap: `TailIsCappedExactly`.
- The fixture's two cursor laws fail under the planted defects, and under no other:
  `CursorLawExactly`, `PromotionLawExactly`; replays repeat the first reply in every run
  exactly without the two replay defects: `ReplayFaithfulExactly`. Each of the three rules for
  promotions holds over all runs exactly without the defect that drops it:
  `FalsifierRuleExactly`, `StatusRuleExactly`, `DuplicateRuleExactly`.
- UTF-16 order differs from code point order, exactly at a first difference between
  U+E000..U+FFFF and a supplementary character: `OrdersAgreeUnlessStraddling`.
- Prices are taken as declared. With a negative price a ceiling can cover a load and refuse a
  smaller one: `NegativePriceInverts` has two such inputs. `RawCostRisesExactly` gives the
  prices under which the unrounded cost rises, and `CoveringIsAntitoneExactly` those under
  which no ceiling does this: the included requests and the included processor time cut the
  loads the verifier costs into at most three zones, and the rounded cost must not fall
  between the first and last loads of these zones.
- The 512 KiB cap never refuses an accepted handback exactly while the contract's maximum
  is at most 87,378 units: `CapNeverFiresExactly`.

## Model

| member | source | states |
|---|---|---|
| `KeyOrder.EncodeInjective` | cli/src/canonical_json.rs:43 | two strings have one UTF-16 encoding only if they are equal |
| `KeyOrder.KeyOrderTotal` | cli/src/canonical_json.rs:43 | comparing keys by code unit is a strict total order |
| `KeyOrder.OrdersAgreeUnlessStraddling` | cli/src/canonical_json.rs:43 | it agrees with code point order if and only if the first difference does not pit U+E000..U+FFFF against a supplementary character |
| `KeyOrder.SortKeysSorted` | cli/src/canonical_json.rs:42-43 | sorting yields a sorted permutation of the keys |
| `KeyOrder.SortedPermutationUnique` | cli/src/canonical_json.rs:42-43 | the sorted permutation is unique, so the key list does not depend on how it was sorted |
| `NumberText.NumberReadsBack` | cli/src/canonical_json.rs:79-114 | the printed number is one JSON number token and reads back as the same sign, digits and exponent, with -0 read as 0 |
| `NumberText.FromDecimalExact` | cli/src/canonical_json.rs:89-114 | reading digits with a point position denotes exactly digits x 10^(n-k) |
| `NumberText.NumberTextInjective` | cli/src/canonical_json.rs:79-114 | two numbers print alike if and only if they are equal up to the sign of zero |
| `NumberText.NumberTextByValue` | cli/src/canonical_json.rs:79-114 | two numbers print alike if and only if they denote the same real number |
| `NumberText.NumberTextLength` | cli/src/canonical_json.rs:94-114 | with at most 17 digits and -323 <= n <= 309 the text has at most 25 characters |
| `NumberSpelling.TextExactly` | cli/src/canonical_json.rs:79-114 | of the tokens that read as the number, the printed one is the one shortest: without an exponent for magnitudes from 0.000001 up to 10^21, otherwise with one non-zero digit before the point and a signed exponent |
| `CanonicalJson.WriteString` | cli/src/canonical_json.rs:60-76 | appends exactly the quoted, escaped text to what the buffer held |
| `CanonicalJson.WriteItems` | cli/src/canonical_json.rs:31-40 | appends the items in order with commas between them and the closing bracket, or reports the first item's error |
| `CanonicalJson.WriteEntries` | cli/src/canonical_json.rs:41-54 | appends every entry in key order with commas between them, or reports the first error |
| `CanonicalJson.WriteValue` | cli/src/canonical_json.rs:19-57 | appends the value's canonical text, or reports the error its text has |
| `CanonicalJson.CanonicalText` | cli/src/canonical_json.rs:13-17 | the canonical text of a parsed value, or the error |
| `JsonReader.EscapedReads` | cli/src/canonical_json.rs:60-76 | an escaped string, closed by a quote, reads back as the string, whatever follows |
| `JsonReader.ValueReads` | cli/src/canonical_json.rs:19-57 | the printed value, followed by anything that cannot extend a number, reads back as exactly the value in normal form and that rest |
| `JsonReader.ItemsRead` | cli/src/canonical_json.rs:31-40 | the same for the items of an array up to its bracket |
| `JsonReader.EntriesRead` | cli/src/canonical_json.rs:41-54 | the same for the entries of an object up to its brace |
| `CanonicalSpelling.ShortestChar` | cli/src/canonical_json.rs:60-76 | no text that reads back as a character is shorter than its escape |
| `CanonicalSpelling.EscapedExactly` | cli/src/canonical_json.rs:60-76 | a text stands between the quotes if and only if it reads back as the string, no text that does is shorter, and no escape in it has an upper-case hexadecimal digit |
| `CanonicalSpelling.CanonicalTextMeans` | cli/src/canonical_json.rs:13-57 | canonical text reads back as the same value, with the members of every object in strictly increasing key order |
| `CanonicalSpelling.FailsExactly` | cli/src/canonical_json.rs:19-85 | printing fails if and only if some number of the value is no finite double, with the error of the first one in the order of printing |
| `JsonIdentity.CanonicalTextStable` | cli/src/canonical_json.rs:13-57 | canonicalising a parsed canonical text returns the same text |
| `JsonIdentity.SameTextExactlyIfSame` | cli/src/canonical_json.rs:13-57 | two values have one text if and only if they are the same JSON value, member order and the sign of zero aside |
| `JsonIdentity.IterationOrderIrrelevant` | cli/src/canonical_json.rs:41-54 | the text of an object does not depend on the map's iteration order |
| `Digests.LinkTextInjective` | apps/wire/src/krater/krater.ts:623-642 | the text hashed into a chain digest determines problem, sequence number, payload digest, row digest and previous digest |
| `Digests.RowTextInjective` | apps/wire/src/krater/krater.ts:644-735 | the text hashed into a row digest determines every immutable attribute of the event |
| `Digests.CheckpointTextInjective` | apps/wire/src/krater/krater.ts:737-752 | the text hashed into a checkpoint digest determines problem, sequence number and root |
| `Digests.TextOfInjective` | apps/wire/src/krater/krater.ts:588-752 | records of one kind have one canonical text only if they are the same record |
| `RecordFields.GenesisFields` | apps/wire/src/krater/krater.ts:588-597 | the text hashed for a genesis holds exactly its three keys, with chain version 2, the genesis kind and the problem |
| `RecordFields.LinkFields` | apps/wire/src/krater/krater.ts:623-642 | the text hashed into a chain digest holds exactly its six keys, each with the value meant for it |
| `RecordFields.RowFields` | apps/wire/src/krater/krater.ts:687-709 | the text hashed into a row digest holds exactly its sixteen keys, each with the attribute of its name, null where there is none |
| `RecordFields.CheckpointFields` | apps/wire/src/krater/krater.ts:737-752 | the text hashed into a checkpoint digest holds exactly its five keys, with both versions, the problem, the root and the number |
| `Digests.TextsCollide` | apps/wire/src/krater/krater.ts:588-752 | a collision of records is a collision of SHA-256 itself: two different texts with one digest |
| `ChainVerifier.RunEvents` | apps/wire/src/krater/export.ts:815-988 | the verifier's loop over the events computes the fold that specifies it, and stops at the first broken event |
| `ChainVerifier.VerifyExportRange` | apps/wire/src/krater/export.ts:815-988 | the whole range verifier: grammar, pins, loop and final tests |
| `ChainVerifier.IntactExactly` | apps/wire/src/krater/export.ts:815-988 | a range is reported intact if and only if it parses, its events are numbered without gap, every payload, row and chain digest is right, every header checkpoint names an event with its digest, the pins hold and the trailer's counts agree; the reported digest is then the last event's |
| `RangeGrammar.ParsedExactly` | apps/wire/src/krater/export.ts:666-708 | lines parse to an archive if and only if they are its header, its events and its end printed in order, with every field in shape, no more checkpoints than events and none beyond the last |
| `RangeGrammar.IntactWhole` | apps/wire/src/krater/export.ts:815-981 | the verdict is intact with a count and a digest if and only if the lines are the printed form of an archive in shape that starts at genesis or at the preceding pin, whose events are numbered on from there and hash to their three digests, whose checkpoints and pin state the digests of its events, and whose end counts them; the digest is the last event's |
| `PublicGrammar.BundleFitsExactly` | packages/contracts/src/ledger.ts:621-661 | a bundle is accepted if and only if its fields are in shape, keys and signatures stand in strict order, each key signs at most once, and every signature is under a listed key and not beyond the cut |
| `PublicGrammar.FaceFitsExactly` | packages/contracts/src/ledger.ts:582-614 | a checkpoint face is accepted if and only if its problem, keys and signatures are in shape and within their numbers |
| `PublicGrammar.PublicParsedExactly` | apps/wire/src/krater/export.ts:573-659 | lines parse as a public export if and only if they are the printed form of an archive with its context and bundle, both of its problem and cut, with every notice attached to the last event of its number |
| `FieldShapes.ProblemIdExactly` | apps/wire/src/krater/export.ts:101 | a problem id is P-, a capital or digit, and one to thirty more of those or hyphens |
| `FieldShapes.TitleOkExactly` | apps/wire/src/krater/export.ts:182-184 | a title is in shape if and only if trimming leaves something of it and it has at most 160 UTF-16 units |
| `FieldShapes.RealDateExactly` | apps/wire/src/krater/export.ts:198-214 | a date exists if and only if its day is within the month of a common year, or the 29th of February in a year that adds one to the count of leap years |
| `FieldShapes.ManifestProblemExactly` | packages/contracts/src/ledger.ts:41-44 | a manifest's problem id has up to 128 letters, digits and separators, starts with no separator and holds no double hyphen |
| `LedgerHistory.EqualLinks` | apps/wire/src/krater/krater.ts:623-735 | two linked events with one chain digest are the same event after the same digest, or give a collision |
| `LedgerHistory.OneHistory` | apps/wire/src/krater/export.ts:815-988 | two chains of one length from one root to one final digest are the same events, or a collision is computed from them |
| `LedgerHistory.LinkedJoin` | scripts/assemble-ledger-backup.ts:52-66 | chains that continue one another join into one chain with the last one's final digest |
| `OfflineLoops.PinAll` | scripts/verify-export.ts:183-197 | the loop over pinned keys: every invalid or ambiguous key is reported, every other one is pinned |
| `OfflineLoops.CollectAnchors` | scripts/verify-export.ts:204-218 | the loop over signatures: unpinned ones are skipped, failing ones reported, and a later verified one replaces an earlier one for its checkpoint |
| `OfflineLoops.MatchAll` | scripts/verify-export.ts:222-233 | the loop over events: how many agree with an anchor, through which sequence number, and which differ |
| `OfflineLoops.CompareHeader` | scripts/verify-export.ts:243-253 | the loop over header checkpoints: exactly those that disagree with an anchor are reported, in order |
| `OfflineLoops.VerifySidecar` | scripts/verify-export.ts:182-273 | the sidecar branch: its complete verdict, with the failures in the order they are met |
| `OfflineLoops.VerifyExportOffline` | scripts/verify-export.ts:82-274 | the verdict in every branch, including the refusals before either branch |
| `OfflineTheorems.PinKeysMeans` | scripts/verify-export.ts:183-197 | no key failure if and only if every key is well formed and no id is pinned to two keys; then the map holds exactly the given keys |
| `FieldShapes.KeyValidExactly` | scripts/verify-export.ts:185-190 | a key is usable if and only if its id has one to 64 of the allowed characters and its public key is 64 lower-case hexadecimal digits |
| `VerdictParts.PinKeysExactly` | scripts/verify-export.ts:183-197 | for every key list: the first usable entry for each id is pinned and no other, and one failure is reported for every entry that is unusable or differs from the pinned one |
| `OfflineTheorems.AnchorsMean` | scripts/verify-export.ts:204-218 | the anchor of a checkpoint is the last signature for it that verifies under a pinned key; no failure if and only if every signature under a pinned key verifies |
| `VerdictParts.SignaturesReported` | scripts/verify-export.ts:204-218 | the failures name, in the order of the signatures, the checkpoints of exactly those under pinned keys that do not verify |
| `VerdictParts.EventsMatched` | scripts/verify-export.ts:222-233 | the count is that of the events with the digest signed for their number, and the reach the greatest number among them, or 0 |
| `VerdictParts.EventsReported` | scripts/verify-export.ts:222-233 | the failures name, in order, exactly the events whose digest differs from the one signed for their number |
| `VerdictParts.HeaderReported` | scripts/verify-export.ts:243-253 | the failures name, in order, exactly the header checkpoints whose root or digest differs from the signed one |
| `VerdictParts.BareExactly` | scripts/verify-export.ts:81 | the prefix sha256: is taken off a digest, once, and nothing else is |
| `OfflineTheorems.SidecarOkExactly` | scripts/verify-export.ts:182-256 | the sidecar verdict is ok if and only if the chain was read intact, the problem matches, keys are pinned unambiguously, pinned signatures verify, events and header agree with the anchors, and the last event and nothing later is anchored |
| `OfflineTheorems.SidecarOkMeans` | scripts/verify-export.ts:254-273 | ok if and only if authenticated; then the export is not empty, the chain was recomputed, signatures are valid, coverage is complete and trusted through the last event |
| `OfflineTheorems.OneSidecarOneHistory` | scripts/verify-export.ts:204-242 | two exports accepted with one sidecar and the same pinned keys hold the same events, or a collision is computed from them |
| `OfflineTheorems.PrefixAndExtensionRefused` | scripts/verify-export.ts:234-242 | a strict prefix or extension of an accepted export's events is refused under the same sidecar and keys |
| `OfflineTheorems.UnpinnedIgnored` | scripts/verify-export.ts:204-218 | signatures under unpinned keys, any number of them and anywhere in the list, change no anchor and no failure |
| `OfflineTheorems.UnpinnedSignaturesIgnored` | scripts/verify-export.ts:204-273 | two faces for one problem that agree on the signatures under pinned keys have one verdict in every field, whatever other signatures either holds |
| `OfflineTheorems.TrustedThroughMeans` | apps/wire/src/krater/export-signatures.ts:136-225 | the embedded branch is trusted through the greatest checkpoint of a signature whose key is pinned as published, or 0 |
| `OfflineTheorems.EmbeddedOkMeans` | scripts/verify-export.ts:132-170 | without a sidecar, ok means a v5 export, an intact recomputed chain, valid pinned keys and an embedded signature that verifies under a pinned key over the final event |
| `OfflineTheorems.EmbeddedOkExactly` | scripts/verify-export.ts:82-170 | without a sidecar the verdict is ok if and only if the lines are no private export but a public one with a bundle, its context digest is right, its chain has integrity, keys are pinned unambiguously, every embedded signature belongs to the export and verifies, and one under a key pinned as published is for the last event |
| `VerdictMeaning.PublicVerified` | apps/wire/src/krater/export.ts:761-803 | a public export gets an assurance if and only if its context digest is right, its chain has integrity, every pin is usable and every embedded signature belongs to it; the assurance then says how many there are, how far they and the pinned ones reach, what they cover and whether the last event is under a pinned key |
| `VerdictMeaning.VerdictSays` | scripts/verify-export.ts:82-274 | the whole answer to every input: every field, and every failure of every stage in the order of the stages, said of the archive, the pins and the signatures without the loops |
| `SignedMessages.MessageSplits` | packages/contracts/src/ledger.ts:664-678 | the signed text splits at line ends into the format name, the problem, the number in decimal, the root and the checkpoint digest |
| `SignedMessages.IntTextExactly` | packages/contracts/src/ledger.ts:664-678 | the number in the signed text is its decimal digits without a leading zero |
| `SignedMessages.MessageInjective` | packages/contracts/src/ledger.ts:664-678 | two signed texts are equal only if problem, number, root and digest are |
| `SignedMessages.SidecarOkSigned` | scripts/verify-export.ts:204-242 | with a sidecar, ok means that a pinned key signed the five lines that name the problem, the last event's number and its chain digest |
| `SignedMessages.EmbeddedOkSigned` | scripts/verify-export.ts:132-170 | without one, ok means the same of a signature that the export carries |
| `BackupAssembly.JoinSegments` | scripts/assemble-ledger-backup.ts:39-67 | the loop over segments computes the fold that specifies it, and stops with the first failing segment's error |
| `BackupAssembly.AssembleLedgerBackup` | scripts/assemble-ledger-backup.ts:23-110 | the assembled backup, or the first of its errors |
| `BackupMeaning.AppendExactly` | scripts/assemble-ledger-backup.ts:39-67 | the next segment is refused as missing, as larger than twelve mebibytes, as unusable when its lines are no printed segment within the cursor, or as not continuing the chain, in that order; otherwise it adds exactly its events and checkpoints and moves to its last event |
| `BackupMeaning.FirstRefusal` | scripts/assemble-ledger-backup.ts:39-67 | an error over the segments is that of the first one refused, after all before it were added |
| `BackupMeaning.AssembledAnswers` | scripts/assemble-ledger-backup.ts:23-110 | the answer to every manifest and all segments: which error and in which order, or the header, events and end of the export, its one signature with the first key of that id, the number of checkpoints without a signature and the count |
| `SignedMessages.AssembledSigned` | scripts/assemble-ledger-backup.ts:29-38 | a backup is assembled only under a key that signed the five lines that name the manifest's cursor and chain digest |
| `AssemblyTheorems.SegmentsJoined` | scripts/assemble-ledger-backup.ts:39-67 | after any number of verified segments the events are numbered 1..cursor without gap or repeat, chain from genesis to the current root, and every collected checkpoint holds |
| `AssemblyTheorems.SegmentationIrrelevant` | scripts/assemble-ledger-backup.ts:39-69 | two segmentations that reach one manifest's terminal digest assemble to the same events, or give a collision |
| `AssemblyTheorems.PreflightExactly` | scripts/assemble-ledger-backup.ts:70-95 | for verified segments the final preflight passes if and only if the manifest's title and date fit the export header and the terminal checkpoint is the last embedded one |
| `AssemblyTheorems.AssembledExactly` | scripts/assemble-ledger-backup.ts:29-95 | a backup is assembled if and only if the manifest is well formed and signed, every segment verifies, the terminal cursor and digest are reached, and title, date and terminal checkpoint pass the preflight |
| `AssemblyTheorems.AssembledBackupVerifies` | scripts/assemble-ledger-backup.ts:85-109 | the assembled lines and their one-signature face pass the offline verifier under the same unambiguous keys: ok, no failure, authenticated, complete coverage through the manifest's cursor |
| `SegmentCuts.AnyCutJoins` | scripts/assemble-ledger-backup.ts:39-67 | however an intact chain is cut into non-empty consecutive segments with their own checkpoints, every segment passes and the joined events are the chain |
| `SegmentCuts.AnyCutRecovered` | scripts/assemble-ledger-backup.ts:29-110 | under a signed manifest such a cut is assembled back to the chain line by line if and only if title, date and terminal checkpoint fit the export, and is refused as invalid otherwise |
| `SegmentCuts.RefusedExactly` | scripts/assemble-ledger-backup.ts:70-95 | for every title and date of a manifest, with or without the terminal checkpoint, there is a signed backup with verified segments that is refused at the end exactly when these do not fit the export |
| `SegmentCuts.RefusedBackups` | scripts/assemble-ledger-backup.ts:70-95 | a title of 161 units, a blank title, the 30th of February and a missing terminal checkpoint are refused that way |
| `CostModel.ExactQuotient` | scripts/verify-cost-model.ts:784-800 | an accepted quotient times the divisor is the dividend |
| `CostModel.ExactQuotientFinds` | scripts/verify-cost-model.ts:784-800 | every exact quotient is accepted and found |
| `CostModel.AcceptedExactly` | scripts/verify-cost-model.ts:741-989 | an input is accepted if and only if its counts are safe integers of their sign, its classes are named, every cadence divides its load, and no product, month, burst or processor time leaves the safe range |
| `CostErrors.ErrorIsFirst` | scripts/verify-cost-model.ts:816-989 | an input is refused with a code if and only if that is the code of the first of the sixteen checks that fails, in the order they are made |
| `CostErrors.SafeProductExactly` | scripts/verify-cost-model.ts:758-772 | a processor time is accepted if and only if it is a whole number less than 2^53 from zero |
| `CostErrors.RoundCentsExactly` | scripts/verify-cost-model.ts:910-916 | a cost is rounded to the whole cents r with r - 0.005 <= cost < r + 0.005: within half a cent, half cents up |
| `CostErrors.RawCostExactly` | scripts/verify-cost-model.ts:892-916 | the cost over the base price is that of the requests over the included ones and of the processor time over the included one, each per million, and nothing below |
| `CostModel.CalculateDerives` | scripts/verify-cost-model.ts:816-989 | every figure of an accepted workload is the declared one or satisfies its defining equation over the declared input, and each product the calculation checks is within the safe range |
| `CostModel.SourceDiscrepancies` | scripts/verify-cost-model.ts:991-1096 | the pushed list holds, in order, each finding whose test holds, with its figures |
| `CostModel.FindingsExact` | scripts/verify-cost-model.ts:991-1096 | each code appears at most once, and if and only if its own condition on the declared input holds |
| `CostModel.FiguresExact` | scripts/verify-cost-model.ts:991-1096 | every figure, list and component a finding carries is the declared one or satisfies its defining equation |
| `CostModel.FindingsIndependent` | scripts/verify-cost-model.ts:991-1096 | every one of the 128 sets of codes is reported for some accepted input |
| `CostModel.VerdictExclusive` | scripts/verify-cost-model.ts:1031-1121 | with a ceiling exactly one of the covering resolution and the exceeded finding is emitted, with none neither; the resolution names the declared ceiling, the cost at the peak rate and both dates |
| `CostCeilings.RawCostRisesExactly` | scripts/verify-cost-model.ts:892-922 | the cost before rounding never falls when the load rises if and only if no stretch between the two included parts has a negative total price, for processor times of either sign |
| `CostCeilings.CostRisesExactly` | scripts/verify-cost-model.ts:892-922 | the rounded cost never falls between loads the verifier costs if and only if it does not between the first and last loads of the zones the included parts make |
| `CostCeilings.CoveringIsAntitoneExactly` | scripts/verify-cost-model.ts:892-1121 | under given prices every ceiling that covers an accepted input covers every accepted one with a smaller peak if and only if that test at the edges holds |
| `CostCeilings.CoveringIsAntitone` | scripts/verify-cost-model.ts:892-1121 | under prices that pass that test, a ceiling that covers one load covers every smaller one, and the smaller one is not reported as exceeding it |
| `CostCeilings.RisingPricesSuffice` | scripts/verify-cost-model.ts:892-922 | prices under which the unrounded cost never falls pass that test |
| `CostCeilings.NegativePriceInverts` | scripts/verify-cost-model.ts:892-1121 | with a negative price, two accepted inputs under one ceiling of which the larger load is covered and the smaller refused |
| `CostModel.SafeEvidenceTotal` | scripts/verify-cost-model.ts:1550-1562 | accepted if and only if all entries are safe counts and their sum is within the safe range, and is then that sum |
| `ReceiptReader.ReadBody` | scripts/verify-cost-model.ts:1432-1456 | the loop ends and returns the file's first size bytes, or the first failure in the order of the calls |
| `ReceiptReader.ReadReceiptBytes` | scripts/verify-cost-model.ts:1418-1473 | the descriptor is closed exactly when it was opened and is not used after; the result is the file's first size bytes, or the code of the first failure, a failing close counting only when nothing failed before |
| `ReceiptReader.ReceiptReadExactly` | scripts/verify-cost-model.ts:1418-1473 | there is no failure if and only if open, both stats, all reads and close succeed on a regular file whose size is within the limit and unchanged |
| `ReceiptReader.FirstReadFailureDecides` | scripts/verify-cost-model.ts:1441-1449 | a read that fails or delivers nothing, after reads that made progress, decides the error whatever the later calls do |
| `ReceiptReader.FailsWithExactly` | scripts/verify-cost-model.ts:1418-1473 | a failure is reported if and only if it is that of the first call or check that fails: open, stat, an unreadable file, one over the limit, a read, the second stat, a changed file, and close |
| `Routes.SplitJoin` | cli/src/lib.rs:855-860 | splitting at a separator undoes joining |
| `Routes.JoinSplit` | cli/src/lib.rs:855-860 | joining the parts of a split restores the text |
| `Routes.OriginPathUnambiguous` | cli/src/lib.rs:800-861 | as texts, before any URL is parsed, an accepted origin followed by an accepted path determines both; the parsed URL may spell the origin otherwise |
| `Routes.BuildUrlExactly` | cli/src/lib.rs:800-875 | for any URL parser, a URL is built if and only if the origin passes the text checks and parses as a bare https origin and the path passes its checks and joins without leaving the origin; it is then the serialised join |
| `UrlChecks.CheckOriginExactly` | cli/src/lib.rs:800-824 | the text checks of an origin stop at the first of: a space, control or backslash, another scheme, user information, anything but an authority; otherwise they pass on the authority |
| `UrlChecks.CheckPathAnswers` | cli/src/lib.rs:843-862 | the text checks of a path stop at the first of: no single leading slash, a fragment, backslash, space or control, an escape or a segment of one or two dots; otherwise they pass on what precedes the first question mark |
| `UrlChecks.BuildUrlAnswers` | cli/src/lib.rs:800-875 | for any URL parser, the error is that of the first check that fails, and without one the URL is the serialised join |
| `Routes.NormalExactly` | cli/src/lib.rs:855-862 | the dot check refuses exactly the absolute paths that dot-segment removal would change |
| `Routes.AcceptedIsNormal` | cli/src/lib.rs:842-862 | dot-segment removal is the identity on every accepted pathname |
| `Routes.PathSplits` | cli/src/lib.rs:365-510 | with ids free of slashes every write path splits into exactly its intended segments |
| `Routes.SafeIdsExactly` | cli/src/lib.rs:1303-1308 | among non-empty ids, exactly the safe ones without controls give a path that is accepted, has no query and has the intended segments |
| `Routes.RoutedExactly` | cli/src/lib.rs:693-722 | a command is routed if and only if its ids are safe, and then to its own address |
| `Routes.RoutesInjective` | cli/src/lib.rs:711-717 | two routed commands with one path are the same command with the same session and hypothesis |
| `EcmaText.TrimExactly` | cli/src/lib.rs:621 | a text is the trimmed one if and only if it is what remains between two blank ends and has no whitespace at its own ends |
| `EcmaText.TrimIdempotent` | cli/src/lib.rs:621 | trimming twice is trimming once |
| `FieldShapes.WhitespaceExactly` | cli/src/lib.rs:621 | white space is the 25 code points of ECMAScript and no other character |
| `WriteBodies.Encode` | cli/src/lib.rs:570-648 | the encoder, which adds optional members to the object it builds, yields the specified body or error; `WriteRequests.BodyStepExactly` says which |
| `WriteBodies.BodyReadsBack` | cli/src/lib.rs:570-648 | the receiver of a built body reads one object with exactly the members that were put in |
| `WriteBodies.SentFields` | cli/src/lib.rs:574-643 | that object holds under every key what the command said, and under no other key anything |
| `WriteBodies.BodyTextInjective` | cli/src/lib.rs:570-648 | two built bodies with one text say the same thing, handbacks after trimming |
| `WriteRequests.PreparedExactly` | cli/src/lib.rs:678-730 | for any URL parser, a request is sent if and only if the ids are safe, the replay key is a header value, the origin is bare both as a text and as parsed, the path joins to it and the encoded body is within the cap; it then carries the joined URL, the key and the body |
| `WriteRequests.FileSentAsRead` | cli/src/lib.rs:575 | a file that was read is sent as it stands |
| `WriteRequests.BodyStepExactly` | cli/src/lib.rs:570-648 | the body is a text if and only if that is the file's text or the text of the built object, and an error if and only if the file was unreadable, the contract's limits are unknown or the trimmed handback is outside them |
| `WriteRequests.UnreadableFileRefused` | cli/src/lib.rs:723-726 | once the body is reached, an unreadable file is refused with the reader's message |
| `UrlChecks.HeaderKeyExactly` | cli/src/lib.rs:700-704 | a replay key is accepted if and only if it is 1 to 4096 printable characters without a space |
| `UrlChecks.PrepareAnswers` | cli/src/lib.rs:678-730 | a write is refused by the first of its checks that fails, session id, hypothesis id, key, URL, body and size, with that check's error, and otherwise sent |
| `Utf8Sizes.Utf8LengthExactly` | cli/src/lib.rs:727-729 | the size that is checked is the number of octets of the text's UTF-8 encoding |
| `WriteRequests.PreparedInjective` | cli/src/lib.rs:678-730 | two equal requests say the same, as equal files, equal built bodies or a file that holds the other's text, and come from one command, or the parser joins two different accepted paths to one URL |
| `WriteRequests.HandbackBound` | cli/src/lib.rs:617-643 | an accepted handback of c UTF-16 units encodes to at most 6c + 15 bytes |
| `WriteRequests.CapNeverFiresExactly` | cli/src/lib.rs:566-729 | the size cap never refuses an accepted handback if and only if the contract's maximum is at most 87,378 |
| `WriteRequests.CloseNeverTooLarge` | cli/src/lib.rs:727-729 | under the bundled contract closing with a handback is never refused for its size |
| `Scorecard.MedianOrderFree` | e2e/gauntlet/scorecard.ts:49-56 | the median does not depend on the order of the entries |
| `Scorecard.MedianMonotone` | e2e/gauntlet/scorecard.ts:49-56 | raising entries never lowers the median |
| `Scorecard.MedianSplits` | e2e/gauntlet/scorecard.ts:49-56 | at least half of the entries, rounded up, are at most the median and at least half at least it |
| `Scorecard.MedianExactly` | e2e/gauntlet/scorecard.ts:49-56 | a number is the median if and only if it is the mean of the two entries with the middle ranks, said by counts and without sorting, or 0 without entries |
| `Scorecard.CompletedTokensExactly` | e2e/gauntlet/scorecard.ts:63-66 | the token counts whose median is taken are those of the completed attempts, each as often as completed attempts used it |
| `Scorecard.CardMeans` | e2e/gauntlet/scorecard.ts:86-93 | the card's total, number of completed attempts, harnesses and median |
| `Scorecard.PassedMeans` | e2e/gauntlet/scorecard.ts:62-94 | a passing card has every attempt index once, exactly the three known harnesses, at least eight attempts marked completed and at least half of those within 25,000 tokens |
| `Scorecard.PassedExactly` | e2e/gauntlet/scorecard.ts:62-94 | a card passes if and only if each index 0..9 occurs exactly once, the harnesses are the three known ones, every token count is a safe integer of its sign, at least eight attempts are marked completed and their median is at most 25,000 |
| `Scorecard.CheaperStillPasses` | e2e/gauntlet/scorecard.ts:62-94 | lowering the token counts of completed attempts, kept at least 1, never turns a passing card into a failing one |
| `StreamBounds.DrainWithCap` | e2e/gauntlet/real-spawn.ts:107-132 | a prefix of the stream of min(total, cap) bytes, none for a cap of zero or less, and the number of the others, for every chunking |
| `StreamBounds.TailOf` | e2e/gauntlet/real-spawn.ts:134-151 | the end of the stream: the whole last chunk if that exceeds the cap, min(total, cap) bytes otherwise |
| `StreamBounds.TailIsCappedExactly` | e2e/gauntlet/real-spawn.ts:134-151 | the tail has min(total, cap) bytes if and only if the last chunk is at most the cap |
| `StreamBounds.TailByChunking` | e2e/gauntlet/real-spawn.ts:134-151 | two chunkings of one stream give one tail if and only if neither's last chunk exceeds the cap, or both last chunks exceed it by equal lengths |
| `FixtureLedger.Ledger.DoGet` | scripts/smoke-agent-fixture-origin.py:145-218 | the reply and the whole new state of a GET; only the rate limit can change |
| `FixtureLedger.Ledger.StartDevice` | scripts/smoke-agent-fixture-origin.py:252-283 | the reply and new state of a device start: replay, drift, refusal or first use |
| `FixtureLedger.Ledger.PromoteClaim` | scripts/smoke-agent-fixture-origin.py:330-355 | the reply and new state of a promotion under each rule and defect |
| `FixtureLedger.Ledger.DoPost` | scripts/smoke-agent-fixture-origin.py:222-366 | the reply and the whole new state of a POST; the rate limit cannot change |
| `FixtureLedger.CursorLawExactly` | scripts/smoke-agent-fixture-origin.py:91-106 | with a token, the cursor is 41 plus the number of promoted statements in every reachable state if and only if the defect is neither cursor-law nor p11-missing |
| `FixtureLedger.PromotionLawExactly` | scripts/smoke-agent-fixture-origin.py:330-355 | with a token, the promotions answered 201 number cursor - 41 in every run if and only if the defect is neither cursor-law nor p3-missing |
| `FixtureLedger.OnlyPromotionsMoveCursor` | scripts/smoke-agent-fixture-origin.py:145-366 | a request moves the cursor only if it is a promotion answered 201, and then by one; nothing is ever forgotten from the promoted statements |
| `FixtureLedger.AtMostOne429` | scripts/smoke-agent-fixture-origin.py:145-160 | over every run at most one 429 is sent, and none without the rate-limit defect |
| `FixtureLedger.FirstGetRefused` | scripts/smoke-agent-fixture-origin.py:145-160 | with that defect it is the first GET that is refused, with the planted delay |
| `FixtureLedger.DeviceReplies` | scripts/smoke-agent-fixture-origin.py:252-283 | all replies to one device key after the first are identical, whatever happens in between |
| `FixtureLedger.ReplayFaithfulExactly` | scripts/smoke-agent-fixture-origin.py:252-283 | in every run every later device start under a key is answered like the first if and only if no replay defect is planted |
| `FixtureReplies.HeldExactly` | scripts/smoke-agent-fixture-origin.py:344-354 | the ledger holds a statement if and only if a promotion of it, other than a conjecture without falsifier, was answered 201 before |
| `FixtureReplies.FalsifierRuleExactly` | scripts/smoke-agent-fixture-origin.py:338-343 | over all runs, every authorised promotion of a conjecture without a falsifier is answered otherwise than 201 and leaves the ledger as it was, if and only if the defect is not p3-missing |
| `FixtureReplies.StatusRuleExactly` | scripts/smoke-agent-fixture-origin.py:334-337 | the same of every promotion with a status field, if and only if the defect is not self-cert-missing |
| `FixtureReplies.DuplicateRuleExactly` | scripts/smoke-agent-fixture-origin.py:344-347 | the same of every promotion of a statement that was promoted before, if and only if the defect is not p11-missing |
| `FixtureReplies.RefusalsNamed` | scripts/smoke-agent-fixture-origin.py:330-347 | the three refusals with their status and problem code, in the order in which the rules are applied |
| `FixtureReplies.AcceptedOtherwise` | scripts/smoke-agent-fixture-origin.py:344-355 | a promotion that no rule stands against is answered 201, recorded and counted by the cursor, but for the two defects about that |
| `FixtureReplies.FaithfulLedger` | scripts/smoke-agent-fixture-origin.py:145-366 | without a defect every request of every run gets the reply that follows from the requests before it alone |
| `FixtureReplies.DefectLocal` | scripts/smoke-agent-fixture-origin.py:145-366 | a defect changes the reply to the requests that reach its own line, to its own reply; every other request is answered and kept as without it |

## Left out

- SHA-256, Ed25519 and the shortest digits of a double are parameters; a signature check is any predicate on key, message and signature.
- IEEE rounding: a safe-integer sum that passes 2^53 is exact here, money and the median's average are real numbers, and NaN is not a token count or a price.
- Parsing of text into lines and of a line into a record: a line that is no record of the grammar is one "other" line. Byte sizes of payloads, identifier and timestamp shapes of an event, licences and other constant fields of a header are checked by the source and not here.
- The time of day of `generated_at`; a date is year, month and day.
- The messages of failures, and the greatest sequence number named in the truncation message.
- The storage keys of segments and the bytes of a manifest; a segment is read by its index.
- The deletion journal and its verifier, the legacy v1 digests, and the gzip layer of backups.
- Url::parse and Url::join of the url crate are parameters; what they do with a host, a default port or percent-encoding is not modelled.
- The fixed texts of a finding: its unit, its no-claim statement, its reason and the operator inputs it asks for.
- The reading of request files and its 512 KiB limit; a file body is what the reader delivered or its message.
- HTTP, TLS, deadlines, child processes and their environment; a stream is the list of chunks its reader delivers.
- The fixture's decoding of requests: JSON bodies, headers and paths arrive decoded, and a body that is no object is not a request here.
- A file system that delivers more bytes than were asked for, or throws the value `undefined`, which the receipt reader would take for no failure.
- attestedReceiptBytes, a conjunction of equalities between parsed documents, with the receipt schema and the published diagnostics: it would add only easy members.
- Command-line arguments, hints and help; round-robin assignment in the gauntlet would add only easy members.
