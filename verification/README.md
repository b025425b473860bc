# Proofs about meridian-core's tools

meridian-core's run-time tools are Python: the backup run seals plugin settings with its own
XChaCha20-Poly1305, the dashboard run reads protobuf by hand, the deployment harness stands in for the
platform's identity service, and the pre-push gate measures each stage's disk. This project models those
pieces of logic in Dafny and proves what each is for.

`dafny verify dfyconfig.toml` checks all of it. There is a module for each piece:

- `Wrappers`, `Bits`, `Bytes`: a value or none; Python's unbounded integers with their bitwise operators, and little-endian layouts.
- `ChaCha`, `Keystream`, `Poly1305`, `Sealing`: the sealing of `e2e/backup/run.py`, against RFC 8439 and
  draft-irtf-cfrg-xchacha. Methods work as the source does, on a list changed in place; each is equal to a
  specification function, and the laws are proved of those.
- `WireReader`: the protobuf reader of `e2e/dashboard/plugin_page_runner.py`, against an encoder written from
  the Protocol Buffers Encoding specification.
- `Sorting`, `Numbering`, `Identity`, `IdentityRuns`, `IdentityAnswers`, `IdentityContents`: the identity routes
  of `deploy/harness/platform.py`, each request one step over the tables they share, what holds over every run of
  requests, what the answers tell, and what is in the records.
- `Gate`, `GateRuns`, `ProcessTree`: the stage machine of `tools/gate.py`, over every sequence of its
  commands, its daemon's samples and what the stages do to containers; and its walk of the process tree.
- `TreePath`, `TreeInPlace`: a path written into a nested tree and read out of it
  (`deploy/harness/harness.py`), as values and as objects changed in place.
- `PacketFilter`: packets cut on a node and let through again (`e2e/failover/run.py`).
- `CiMirror`, `CiScans`: the check that CI and `make ci-local` run the same stages (`tools/ci_mirror_check.py`).
- `Footprint`: the cluster jobs' peaks judged by their median (`tools/footprint.py`).

Six properties that read as if they held of the code do not. Each is given its exact condition, and an input at
which it fails:

- A message's fields are those of its two halves put together exactly when the first half is complete
  (`WireReader.ConcatenationExactly`). A first half cut short inside its last field is read without complaint and
  takes the second's bytes (`WireReader.CutShortTakesOn`).
- A release frees only the stage's own containers exactly where the listing at its mark succeeded, or its own
  failed (`GateRuns.OlderRemovedExactly`). A listing that failed is kept as "none", and the release then removes
  a container that was there before (`GateRuns.FailedListingLosesOlder`).
- A run of good rows never went below what its stages were allowed exactly when no sample between stages did
  (`GateRuns.GoodRunNeverBelowExactly`): between one stage's end and the next one's beginning no window is open
  (`GateRuns.BetweenStagesUnmeasured`).
- "minted" is answered just when something new is held, exactly unless the request is a retry of one answered as
  minted, or is settled by a FIGI of the source's whose record is minted already, by a bond or by a pool
  (`IdentityAnswers.MintedMeansNewExactly`, `IdentityAnswers.MintedThreeTimes`).
- Lifting a cut that was only partly put in restores the chain exactly when no rule never put in is like one the
  chain had (`PacketFilter.LiftRestoresExactly`, `PacketFilter.PartialCutLosesRule`); a cut put in whole is
  always lifted without a trace.
- The process-tree walk ends, each pid having one row, exactly when the root is on no cycle
  (`ProcessTree.EndsExactly`, `ProcessTree.OwnParentNeverEnds`).

Where the code and its own comments differ, the model follows the code: `mark`'s comment (tools/gate.py:363-364)
says that `release` frees only the stage's own containers, which the second point above qualifies.

## Model

| member | source | states |
|---|---|---|
| Bits.XorCancels | e2e/backup/run.py:161-187 | `^` by the same number twice gives the first back, for integers of any size |
| Bits.XorAdds | e2e/backup/run.py:161-187 | `^` is the sum less what is carried: `x ^ y` and twice `x & y` come to `x + y` |
| Bits.BitByBit | e2e/backup/run.py:157-187 | every bit of and, or and exclusive-or is what the two bits come to |
| Bits.AndLow | e2e/backup/run.py:153-176 | `&` with n ones keeps exactly the low n bits |
| Bits.OrAdds | e2e/backup/run.py:157-158 | or-ing a shifted number with one below the shift is adding them: nothing overlaps |
| Bits.AndSplits | e2e/backup/run.py:157-191 | `&` works on low and high bits apart |
| Bits.ShiftsMean | e2e/backup/run.py:157-158 | `<<` and `>>` multiply and divide by a power of two, and the low bits are the remainder |
| Bytes.LeRoundTrip | e2e/backup/run.py:190-196 | `int.from_bytes` of `to_bytes` gives every number that fits back |
| Bytes.LeLaysBack | e2e/backup/run.py:190-196 | `to_bytes` of `int.from_bytes` gives every byte string back |
| Bytes.UnpackPacked | e2e/backup/run.py:172-182 | `struct.unpack` of `struct.pack` gives every list of 32-bit words back |
| Bytes.PackUnpacked | e2e/backup/run.py:172-182 | `struct.pack` of `struct.unpack` gives every string of whole words back |
| Bytes.AndByBytes | e2e/backup/run.py:191 | `&` of two long integers is `&` of their bytes, place by place |
| ChaCha.RotlRotates | e2e/backup/run.py:157-158 | the masked shift-and-or is the rotation of section 2.1 of RFC 8439, and a word again |
| ChaCha.RotateLeftMeans | e2e/backup/run.py:157-158 | that rotation in numbers: the word times a power of two modulo 2^32, and what goes past its top |
| ChaCha.QuarterForthAndBack | e2e/backup/run.py:162-166 | the inverse quarter round undoes the quarter round on every four words |
| ChaCha.QuarterBackAndForth | e2e/backup/run.py:162-166 | and the quarter round undoes its inverse |
| ChaCha.MixedIsQuarterRound | e2e/backup/run.py:162-166 | on words, `qr`'s eight statements are section 2.1's quarter round |
| ChaCha.QuarterRoundIsRfc | e2e/backup/run.py:162-166 | section 2.1's quarter round written out in numbers: four sums modulo 2^32 and turns by 16, 12, 8 and 7 places |
| ChaCha.Qr | e2e/backup/run.py:162-166 | `qr` in place: four places mixed, the other twelve left as they were |
| ChaCha.Rounds | e2e/backup/run.py:161-169 | `_rounds` in place: the list becomes its permutation, eighty `qr` calls on |
| ChaCha.ColumnsAtOnce | e2e/backup/run.py:168 | four `qr` calls one after another are section 2.3's column round, all four columns at once |
| ChaCha.DiagonalsAtOnce | e2e/backup/run.py:169 | and four more its diagonal round |
| ChaCha.RoundsAreRfc | e2e/backup/run.py:168-169 | which places each column and each diagonal is, and where its quarter round is put back |
| ChaCha.NextInnerBlock | e2e/backup/run.py:167-169 | an inner block is a column round, then a diagonal round |
| ChaCha.CallsAreInnerBlocks | e2e/backup/run.py:161-169 | n rounds of eight calls are n inner blocks of section 2.3, every word staying below 2^32 |
| ChaCha.PermutedIsRfc | e2e/backup/run.py:161-169 | `_rounds` is section 2.3's ten inner blocks on every state, and leaves a state |
| ChaCha.InnerBlocksInvert | e2e/backup/run.py:161-169 | inverse inner blocks undo any number of inner blocks |
| ChaCha.InnerBlocksInvertBack | e2e/backup/run.py:161-169 | and inner blocks undo their inverses |
| ChaCha.PermutedIsBijection | e2e/backup/run.py:161-169 | `_rounds` is a bijection on states: the explicit inverse undoes it both ways round |
| Keystream.SigmaIsRfc | e2e/backup/run.py:154 | SIGMA is the four constants of section 2.3 |
| Keystream.StartIsRfc | e2e/backup/run.py:173-180 | the state outright: four constants, the key's eight words, the counter and the nonce's three, each word its own four bytes, least first; and HChaCha20's |
| Keystream.ComputeBlock | e2e/backup/run.py:172-176 | `_block`, its copy permuted in place, for any counter |
| Keystream.BlockIsRfc | e2e/backup/run.py:172-176 | for every 32-bit counter each word of the block, read from its four bytes, is that of the permuted state added modulo 2^32 to that of the first (section 2.3) |
| Keystream.ComputeHChaCha | e2e/backup/run.py:179-182 | `_hchacha`, the state permuted in place |
| Keystream.HChaChaIsDraft | e2e/backup/run.py:179-182 | its words are the first four and the last four of the permuted state, nothing added (section 2.2 of draft-irtf-cfrg-xchacha) |
| Keystream.HChaChaFromBlock | e2e/backup/run.py:172-182 | HChaCha20's words are words 0-3 and 12-15 of the block of the same 16 bytes, less the state before, modulo 2^32 |
| Keystream.ComputeXor | e2e/backup/run.py:185-187 | `_xor` by its stream of blocks, built one at a time |
| Keystream.StreamAt | e2e/backup/run.py:186 | byte j of the stream is byte j mod 64 of the block with counter 1 + j div 64 |
| Keystream.XorDataAt | e2e/backup/run.py:185-187 | byte j of the result is byte j of the data exclusive-ored, bit by bit, with that byte |
| Keystream.CountersStayWords | e2e/backup/run.py:185-187 | up to 64 * (2^32 - 1) bytes every counter is a 32-bit word and none is 0, and no two bytes use one keystream byte |
| Keystream.XorDataInvolutes | e2e/backup/run.py:185-187 | `_xor` undoes itself on data of any length |
| Keystream.XorDataOfPrefix | e2e/backup/run.py:185-187 | `_xor` of a prefix is a prefix of `_xor` |
| Poly1305.Accumulate | e2e/backup/run.py:190-196 | the loop, reducing at every step, computes the tag of section 2.5 for every message, a short last block included |
| Poly1305.SumTo | e2e/backup/run.py:193-195 | what the loop has accumulated is below 2^130 - 5 at every step |
| Poly1305.MacBySum | e2e/backup/run.py:190-196 | the tag is section 2.5's: the sum of c_i * r^(q-i+1) modulo 2^130 - 5, plus s, modulo 2^128 |
| Poly1305.SumStep | e2e/backup/run.py:194-195 | one pass of the loop takes the sum of the blocks read to the sum with the next |
| Poly1305.SumAppends | e2e/backup/run.py:194-195 | Horner's rule, for every list of coefficients |
| Poly1305.ModulusIsRfc | e2e/backup/run.py:193-196 | the two moduli are 2^130 - 5 and 2^128 |
| Poly1305.RIsClamped | e2e/backup/run.py:191 | r is the key's first half with exactly the bits section 2.5 clears cleared |
| Poly1305.SIsSecondHalf | e2e/backup/run.py:192 | s is the second half of the key |
| Poly1305.CoefficientAt | e2e/backup/run.py:194-195 | coefficient k is the k-th sixteen bytes, or those there are, least first, with a one above them |
| Poly1305.TagIsRfc | e2e/backup/run.py:190-196 | the tag from the key's two halves: the polynomial at the clamped first modulo 2^130 - 5, plus the second, modulo 2^128 |
| Poly1305.CoefficientsInjective | e2e/backup/run.py:194-195 | no two messages have the same coefficients, whatever their lengths: the byte put above each block tells them apart |
| Poly1305.SameTagExactly | e2e/backup/run.py:190-196 | two messages have one tag exactly when their reduced polynomials at r agree modulo 2^128 |
| Sealing.ComputeTag | e2e/backup/run.py:199-202 | `_tag`, its one-time key the first half of block 0 |
| Sealing.ComputeSeal | e2e/backup/run.py:209-213 | `seal`, its nonce given |
| Sealing.ComputeOpened | e2e/backup/run.py:216-224 | `opened`, with each way it gives nothing |
| Sealing.SealThenOpen | e2e/backup/run.py:209-224 | what `seal` makes opens to the value, under every key, plugin, name, nonce and value |
| Sealing.OpenThenSeal | e2e/backup/run.py:209-224 | whenever `opened` gives a value, sealing it under the nonce the bytes carry gives exactly those bytes |
| Sealing.OpensExactlyWhatWasSealed | e2e/backup/run.py:209-224 | bytes open to a value exactly when some nonce seals the value to them |
| Sealing.OneTagOpens | e2e/backup/run.py:216-224 | of all tags behind a nonce and a body exactly one opens |
| Sealing.TagIsRfc | e2e/backup/run.py:199-202 | the tag is section 2.8's: its key the first 32 bytes of the block of the state written out with counter 0, its input the parts padded with zeros to sixteen bytes and their lengths |
| Sealing.AadLaidOut | e2e/backup/run.py:205-206 | the associated data byte by byte |
| Sealing.SealedIsDraft | e2e/backup/run.py:209-213 | what is sealed byte by byte: version, nonce, each byte of the value under block 1 + j div 64, the tag; the subkey and the inner nonce from the nonce's parts |
| Sealing.MacDataInjective | e2e/backup/run.py:199-202 | two pairs of associated data and ciphertext are authenticated as the same bytes exactly when they are the same (section 2.8 of RFC 8439) |
| Sealing.AadInjective | e2e/backup/run.py:205-206 | with NUL-free plugin ids, the associated data determines plugin and name |
| Sealing.AadConfusedExactly | e2e/backup/run.py:205-206 | a plugin id shares associated data with a NUL-free one exactly when it holds a NUL itself |
| Sealing.AuthenticatedInputDecodes | e2e/backup/run.py:190-206 | with NUL-free plugin ids, `_poly1305` sums the same coefficients exactly for the same plugin, name and ciphertext |
| WireReader.Varint | e2e/dashboard/plugin_page_runner.py:139-147 | `varint`, seven bits or-ed in at a time: the base-128 number and where it ends, or an IndexError |
| WireReader.ReadFields | e2e/dashboard/plugin_page_runner.py:117-136 | `fields_of`, its dictionary filled field by field, with each of its errors |
| WireReader.ReadLevels | e2e/dashboard/plugin_page_runner.py:150-161 | `levels_of`, packed values and single ones appended in order |
| WireReader.VarintByte | e2e/dashboard/plugin_page_runner.py:142-146 | the mask, shift and or of one byte add its seven bits above the value so far, and the top bit tells whether more follow |
| WireReader.VarintInverts | e2e/dashboard/plugin_page_runner.py:139-147 | every natural number's base-128 encoding reads back as it, whatever follows |
| WireReader.VarintExactly | e2e/dashboard/plugin_page_runner.py:139-147 | any varint, shortest or not, is the groups of seven bits up to the first byte not marked |
| WireReader.VarintUnended | e2e/dashboard/plugin_page_runner.py:139-147 | with every byte marked it is an IndexError |
| WireReader.EncodedVarintSays | e2e/dashboard/plugin_page_runner.py:139-147 | the encoder's bytes outright: the number's groups of seven bits, least first, no more than it takes |
| WireReader.RecordSays | e2e/dashboard/plugin_page_runner.py:122-135 | the encoder's record outright: the field's number above three bits of wire type, then its payload |
| WireReader.ValueSays | e2e/dashboard/plugin_page_runner.py:124-135 | what is read behind a key for each wire type, whole or cut short, or the error |
| WireReader.RecordInverts | e2e/dashboard/plugin_page_runner.py:122-135 | a record of any of the four wire types reads back as its field, whatever follows |
| WireReader.MessageInverts | e2e/dashboard/plugin_page_runner.py:117-136 | every list of records reads back as its fields in order, to the last byte |
| WireReader.FieldsOfInverts | e2e/dashboard/plugin_page_runner.py:117-136 | `fields_of` gives, for every list of records, each number's values in order and no number besides |
| WireReader.ValueStands | e2e/dashboard/plugin_page_runner.py:135 | each field's value stands in its number's list behind exactly those of the fields of that number before it |
| WireReader.MergedSays | e2e/dashboard/plugin_page_runner.py:135 | two dictionaries merged, number by number |
| WireReader.FieldsConcat | e2e/dashboard/plugin_page_runner.py:117-136 | after a complete message, what follows is read as it is on its own |
| WireReader.ConcatenationExactly | e2e/dashboard/plugin_page_runner.py:117-136 | `fields_of` of two messages end to end is their dictionaries merged, for every second, exactly when the first is complete |
| WireReader.CutShortTakesOn | e2e/dashboard/plugin_page_runner.py:117-136 | a record cut short takes the bytes of the message put after it |
| WireReader.PackedInverts | e2e/dashboard/plugin_page_runner.py:157-160 | packed numbers read back in order |
| WireReader.LevelsSay | e2e/dashboard/plugin_page_runner.py:150-161 | a value alone is its number or its packed numbers, and lists end to end are read end to end |
| WireReader.LevelsInvert | e2e/dashboard/plugin_page_runner.py:117-161 | a repeated enum written packed, unpacked or partly each, among records of any other fields, is read back to one list through both functions, and is there exactly where a part of it is |
| Sorting.SortSorted | deploy/harness/platform.py:701 | `sorted` leaves its elements in order |
| Sorting.SortOrderless | deploy/harness/platform.py:701 | `sorted` of the same elements in any order is one list |
| Sorting.StringLeOrders | deploy/harness/platform.py:701 | strings by their code points are totally ordered |
| Sorting.StringLeExactly | deploy/harness/platform.py:701 | which of two strings comes first: one that begins the other, or the first character unlike it with the smaller code point |
| Numbering.PaddedInjective | deploy/harness/platform.py:622 | two numbers zero-padded alike are one, also past the padding's width |
| Numbering.MintedIdSays | deploy/harness/platform.py:622-903 | a minted ID outright: its table's prefix, then each decimal digit of its number, zeros before them up to 19 or 20 |
| Numbering.MintedIdInjective | deploy/harness/platform.py:622-903 | a minted ID tells its table and its number: the three INS- tables' IDs and the EVG- ones never coincide |
| Numbering.NextNumber | deploy/harness/platform.py:620-622 | numbering from the table's length plus one keeps a table's IDs apart |
| Identity.Platform.constructor | deploy/harness/platform.py:610-638 | the tables requests change start empty, the confirmed FIGIs and licensed administrators as given |
| Identity.Platform.MintedRecord | deploy/harness/platform.py:617-632 | `minted_record`: the whole new state, and the record then held |
| Identity.Platform.EventContractOf | deploy/harness/platform.py:651-680 | `event_contract`: the whole new state, and the record then held |
| Identity.Platform.CandidateMinted | deploy/harness/platform.py:891-913 | `candidate_minted`: the first candidate its FIGI names, whether new, and the whole new state |
| Identity.Platform.TryIdentifier | deploy/harness/platform.py:736-782 | one identifier's pass of `match_or_mint`, in the order its branches are tried |
| Identity.Platform.MatchOrMint | deploy/harness/platform.py:728-785 | `match_or_mint`: the first identifier that settles an answer, which is kept under the request's key |
| Identity.Platform.CompanyOf | deploy/harness/platform.py:802-828 | `company`: the answer, and the whole new state |
| Identity.Platform.EventGroupOf | deploy/harness/platform.py:692-725 | `event_group`: the answer, and the whole new state |
| IdentityRuns.AnsweredForEver | deploy/harness/platform.py:698-828 | a non-empty request key once answered is answered the same for ever, on any of the three routes and whatever came between, and a retry changes no table |
| IdentityRuns.AnswersStay | deploy/harness/platform.py:612 | an answer kept is never changed by any run |
| IdentityRuns.RunGrows | deploy/harness/platform.py:612-913 | over every run the tables only grow: records, companies and answers stay as they were, groups keep their ID and their version never falls |
| IdentityRuns.RunValid | deploy/harness/platform.py:612-913 | every run keeps each table's IDs numbered apart and every group's members held |
| IdentityRuns.OneIdOneKey | deploy/harness/platform.py:617-913 | an ID that comes to name a key names it ever after, and never another, in its own table or any other |
| IdentityRuns.GroupAfter | deploy/harness/platform.py:692-725 | a step leaves a group as it is unless it says something new of it; then it is the next version, with the members sorted and the flags asked |
| IdentityRuns.VersionsCountRevisions | deploy/harness/platform.py:708-722 | over every run a group's version counts its revisions: 1, 2, 3 without a gap |
| IdentityRuns.HeldExactlyWhenAccepted | deploy/harness/platform.py:704-722 | a group is held after a run exactly when some grouping of it was accepted in it |
| IdentityRuns.MintedExactlyFirst | deploy/harness/platform.py:710-723 | an accepted grouping that is no retry is answered with the group held, and as minted exactly when none was accepted before |
| IdentityRuns.MemberOrderNeverMatters | deploy/harness/platform.py:701-722 | the same grouping with its members in another order has the same answer and leaves the same tables |
| IdentityContents.GroupingExactly | deploy/harness/platform.py:698-725 | after an accepted grouping, over every run, the group held has just the asked members and flags; the groups change exactly where the one held before had not, and then to its next version under its ID |
| IdentityContents.GroupQueuedExactly | deploy/harness/platform.py:704-706 | a grouping is queued, no group changed, exactly for a venue not known, no event, no member or one not held |
| IdentityContents.HeldExactly | deploy/harness/platform.py:683-689 | an instrument is held exactly where a contract, a record minted or a seeded one has its ID |
| IdentityContents.AnswersAfter | deploy/harness/platform.py:698-828 | an answer is kept exactly under a non-empty key not answered before, and no other changes |
| IdentityContents.SettingsAfter | deploy/harness/platform.py:1109-1117 | only a confirmation adds to the source's FIGIs, and only a licence sets the administrators |
| IdentityContents.ContractMinted | deploy/harness/platform.py:651-680 | what a contract minted says: its identifier, currency, description, venue and payout |
| IdentityContents.OfferedLast | deploy/harness/platform.py:656-663 | the last value offered for a path is the one taken |
| IdentityContents.CandidateMintedSays | deploy/harness/platform.py:849-903 | what a candidate minted says: its identifiers, with and without a listing, and its venue |
| IdentityContents.FigiMintedSays | deploy/harness/platform.py:617-632 | what a record minted from a FIGI says |
| IdentityContents.EventVenueExactly | deploy/harness/platform.py:641-648 | a source names the venue of that ID, else the first of that MIC, else none |
| IdentityContents.CandidateNamedExactly | deploy/harness/platform.py:891-896 | a FIGI names the first candidate whose composite or share class it is |
| IdentityContents.CompanyNamedExactly | deploy/harness/platform.py:811-815 | an identifier names a company by its CIK, or the first by its LEI |
| IdentityContents.ContractSettles | deploy/harness/platform.py:738-744 | first, a ticker asked for as an event contract on a venue known: its contract, new exactly where none was held |
| IdentityContents.CandidateSettles | deploy/harness/platform.py:745-749 | then a candidate, on its listing's venue or the US composite |
| IdentityContents.SettledByExactly | deploy/harness/platform.py:750-782 | then which seeded record, source's FIGI, bond or pool an identifier is answered with, in the order they are tried |
| IdentityContents.ResolvedExactly | deploy/harness/platform.py:1074-1082 | a resolve mints a FIGI of the source's, and nothing besides |
| IdentityRuns.MembersStayHeld | deploy/harness/platform.py:683-722 | every member of every version ever held is held in all later states, and the group keeps its ID |
| IdentityRuns.RecordsUnderTheirKeys | deploy/harness/platform.py:617-913 | over every run what is held under a key is that key's: a record its FIGI, a contract its symbol and a known venue, a candidate the FIGIs that name it, a company its CIK, a group its event with members in order |
| IdentityAnswers.MatchedByFirst | deploy/harness/platform.py:734-782 | a matching request is answered by the first of its identifiers that settles an answer |
| IdentityAnswers.QueuedExactly | deploy/harness/platform.py:734-782 | it is queued exactly when none does, and then no table changes |
| IdentityAnswers.AskedAgainMatches | deploy/harness/platform.py:728-785 | a matching request made again under a key not answered yet, whatever came between but a change of the FIGIs confirmed or the administrators licensed: the same record, minted only for a FIGI of the source's, a bond or a pool, and no table changed but the answers |
| IdentityAnswers.CompanyAskedAgainMatches | deploy/harness/platform.py:802-828 | a company asked for again under a key not answered yet, whatever came between: the same company, not minted, and no table changed but the answers |
| IdentityAnswers.CompanyHeldExactlyWhenAsked | deploy/harness/platform.py:802-828 | over every run a company comes to be held exactly by a request for it that is no retry |
| IdentityAnswers.CompanyMintedExactlyFirst | deploy/harness/platform.py:788-828 | a company is minted on first asking and matched after: as minted exactly for the first request for it that is no retry |
| IdentityAnswers.MintedMeansNewExactly | deploy/harness/platform.py:692-828 | on each of the three routes, "minted" is answered just when something new is held, exactly unless the request is a retry of one answered as minted, or is settled by a FIGI of the source's minted already, a bond or a pool |
| IdentityAnswers.MintedThreeTimes | deploy/harness/platform.py:730-774 | a FIGI asked for under one key, another and the first again: answered as minted each time, minted once |
| Gate.Least | tools/gate.py:423 | `min`: an element no other is below |
| Gate.Gate.constructor | tools/gate.py:206-276 | what `start` leaves: the budgets, the free space it started from, and empty files besides |
| Gate.Gate.SamplesIn | tools/gate.py:137-145 | `samples`, line by line |
| Gate.Gate.Close | tools/gate.py:417-464 | `close`: the row kept, the shared baseline, the files after it, and an exit of 0 exactly for a good row with a budget |
| Gate.Gate.FreeMarked | tools/gate.py:388-404 | `free_marked`: the mark gone, the containers made since removed, both readings recorded |
| Gate.Gate.BeginStage | tools/gate.py:286-312 | `begin`, an open stage abandoned first |
| Gate.Gate.DropWithin | tools/gate.py:337-351 | `drop`: two readings recorded and nothing else of the files changed |
| Gate.Gate.MarkServices | tools/gate.py:362-372 | `mark`: the stage's services and the containers they had, its latest mark replacing any before |
| Gate.Gate.ReleaseStage | tools/gate.py:375-385 | `release`: what the stage marked freed; of a stage that marked nothing, nothing done and an exit of 1 |
| Gate.Gate.EndStage | tools/gate.py:407-464 | `end`: the open stage closed and its exit 0 exactly for a good row with a budget; of another, nothing done and an exit of 1 |
| GateRuns.RowsAreStagesBegun | tools/gate.py:286-464 | over every sequence of steps the rows' stages, then the open one, are the stages begun, in begin order |
| GateRuns.ClosedRowSays | tools/gate.py:417-443 | a row closed field by field: window, least sample, peak above what was shared, its stage's budget and the verdict by it |
| GateRuns.ClosedFilesSay | tools/gate.py:417-445 | the files a close leaves: no stage open, both readings, the baseline moved by an images or compile stage only |
| GateRuns.FreedSays | tools/gate.py:388-404 | which containers are removed, that the mark goes, and the readings recorded |
| GateRuns.MarkedSays | tools/gate.py:362-372 | what a mark keeps, none where the listing fails |
| GateRuns.BegunSays | tools/gate.py:286-312 | a begin, the stage left open abandoned first |
| GateRuns.OtherStepsSay | tools/gate.py:337-414 | what a drop, a release, an end, a sample and the targets leave |
| GateRuns.FailedExactlyWhenBegun | tools/gate.py:286-464 | a row is failed exactly when the next stage's begin closed it |
| GateRuns.OpenWithItsDrops | tools/gate.py:293-444 | the open stage's record and its drops' exist together or not at all |
| GateRuns.MarkStays | tools/gate.py:362-404 | a mark stays as it was until the stage is marked again or freed |
| GateRuns.FreesExactlyTheStagesOwn | tools/gate.py:354-404 | where listings succeed, a release or an abandonment removes exactly the marked services' containers absent at the stage's latest mark |
| GateRuns.OlderRemovedExactly | tools/gate.py:354-404 | a container there at the mark is removed exactly when the mark's listing failed and the release's did not |
| GateRuns.FailedListingLosesOlder | tools/gate.py:354-404 | a container up before the stage, removed by its release after a listing failed at its mark |
| GateRuns.InWindowExactly | tools/gate.py:137-145 | a reading is given exactly when a sample of it lies in the window |
| GateRuns.RunSound | tools/gate.py:417-434 | every run keeps each row measured by its window's least sample, later samples changing nothing |
| GateRuns.GoodExactlyWithinBudget | tools/gate.py:417-434 | over every run a stage that ended is ok exactly when it has no budget, or no sample of the whole log in its window fell below the start less what the shared stages had left less the budget it was started with; else OVER |
| GateRuns.ChargedAboveTheSharedStages | tools/gate.py:425-434 | each row is charged above exactly what the shared stages before it had left |
| GateRuns.SharedLeftExactly | tools/gate.py:432-434 | that is what the last images or compile stage left below the start once freed, or nothing |
| GateRuns.BudgetIsTheStages | tools/gate.py:427 | over every run, a row's budget is the one its stage was started with, or none |
| GateRuns.GoodRunNeverBelow | tools/gate.py:417-434 | in a run of ok rows no sample of a stage's window fell below the start less the most a stage was allowed |
| GateRuns.GoodRunNeverBelowExactly | tools/gate.py:417-434 | and no sample at all exactly when none taken between stages did |
| GateRuns.BetweenStagesUnmeasured | tools/gate.py:417-434 | a run of ok rows that went below it between stages |
| ProcessTree.Descendants | tools/gate.py:163-175 | `descendants`: exactly the pid and what is under it, each once, every parent before its children, and the loop ends |
| ProcessTree.ChildIsNew | tools/gate.py:171-174 | a child of the pid popped was neither found nor waiting |
| ProcessTree.PopKeepsInv | tools/gate.py:171-174 | one pass of the loop keeps what it has found and what waits |
| ProcessTree.EndsExactly | tools/gate.py:170-174 | the loop ends, each pid having one row, exactly when the root is on no cycle |
| ProcessTree.CycleWaits | tools/gate.py:170-174 | a pid of a cycle through the root waits on the stack after every number of passes |
| ProcessTree.OwnParentNeverEnds | tools/gate.py:170-174 | for a process its own parent the stack is never empty |
| TreePath.ComputePick | deploy/harness/harness.py:1504-1512 | `pick`, walking down the tree, with where it fails |
| TreePath.PickOfPut | deploy/harness/harness.py:1469-1512 | what was written is read back |
| TreePath.PutTwice | deploy/harness/harness.py:1469-1501 | a second write overwrites the first |
| TreePath.PutOfPick | deploy/harness/harness.py:1469-1512 | writing back what was read changes nothing, wherever the path ends in a field |
| TreePath.PutElsewhere | deploy/harness/harness.py:1469-1512 | along every path that parts from the one written, whether or not the value is written, what was read is read as before, and what was not is not, but for the empty rows a list is padded with |
| TreePath.WrittenExactly | deploy/harness/harness.py:1469-1501 | a value is written exactly when the path ends in a field and whatever there is along it is what the path takes it for |
| TreePath.WrittenAlike | deploy/harness/harness.py:1469-1501 | whether it is written does not depend on the value |
| TreePath.FailedAlike | deploy/harness/harness.py:1469-1501 | where it stops with an error nothing of the value is left in the tree |
| TreePath.PaddedExactly | deploy/harness/harness.py:1496-1497 | padding adds empty dictionaries only, and only up to the row asked for |
| TreePath.RowsAre | deploy/harness/harness.py:1510-1511 | a row of a list is its element, of a string its character; there is no other |
| TreeInPlace.Node.SetField | deploy/harness/harness.py:1482-1483 | a field set in place: the dictionary's whole new contents |
| TreeInPlace.Node.SetDefault | deploy/harness/harness.py:1485-1487 | `setdefault`: an empty part added where there is none, and nothing else |
| TreeInPlace.Node.Append | deploy/harness/harness.py:1496-1497 | a row appended in place: the list's whole new contents |
| TreeInPlace.Node.PutRow | deploy/harness/harness.py:1487-1501 | the rows padded in place, then the row written on into |
| TreeInPlace.Node.PutAt | deploy/harness/harness.py:1469-1501 | `put` on objects changed in place leaves the tree the laws above are proved of, errors part-way included |
| PacketFilter.Node.Cut | e2e/failover/run.py:659-674 | the rules put in at FORWARD's head, as far as they hold |
| PacketFilter.Node.Lift | e2e/failover/run.py:659-674 | the rules taken out, each whether or not it is there |
| PacketFilter.Node.Isolate | e2e/failover/run.py:912-920 | `isolate` putting in: the three chains after it, as far as its four rules hold |
| PacketFilter.Node.Rejoin | e2e/failover/run.py:912-920 | `isolate` taking out: the three chains after it |
| PacketFilter.LiftRestoresExactly | e2e/failover/run.py:659-674 | a cut of which some rules held, lifted, restores any chain exactly when no rule never put in is like one it had |
| PacketFilter.PartialCutLosesRule | e2e/failover/run.py:659-674 | a chain's own rule lost by lifting a cut that never got it in |
| PacketFilter.CutThenLift | e2e/failover/run.py:659-674 | a whole cut lifted restores every chain exactly, for every target list, repeats and rules like its own included |
| PacketFilter.IsolateThenRejoin | e2e/failover/run.py:912-920 | an isolation taken out restores the three chains exactly when no rule never put in is like one its chain had; so always where all four held |
| PacketFilter.DeletedHead | e2e/failover/run.py:659-674 | first-match deletion takes rules put at the head out of the head, in whatever order |
| PacketFilter.VerdictWhileInserted | e2e/failover/run.py:659-674 | drops at the head drop exactly what they match; the rest get the chain's first-match verdict |
| PacketFilter.FirstDecides | e2e/failover/run.py:659-674 | a chain's verdict is that of its first rule to decide, or its policy |
| PacketFilter.WhileCut | e2e/failover/run.py:659-674 | while cut, exactly the packets between the pod and a target, either way, are dropped besides |
| PacketFilter.WhileIsolated | e2e/failover/run.py:912-920 | while isolated, the same in each of the three chains for the pod's packets |
| CiMirror.Closure | tools/ci_mirror_check.py:122-140 | `ci_local_closure` ends on every prerequisite graph, cycles included, with exactly the targets reached |
| CiScans.PrereqsExactly | tools/ci_mirror_check.py:126-130 | a target's prerequisites are those of every rule that names it |
| CiMirror.Jobs | tools/ci_mirror_check.py:39-60 | `workflow_jobs`: the job keys under `jobs:` of every file, each with the files it appears in, in order |
| CiMirror.KeyedExactly | tools/ci_mirror_check.py:39-60 | a job is one of the jobs exactly when it appears in some file |
| CiScans.JobsExactly | tools/ci_mirror_check.py:50-59 | the jobs found are those keyed, two spaces in, behind a `jobs:` key no line not indented has closed |
| CiMirror.Staged | tools/ci_mirror_check.py:66-96 | `workflow_stages`: the jobs that run a stage, each with the stages it names in order |
| CiScans.StagedExactly | tools/ci_mirror_check.py:66-96 | a job runs stages exactly where a line within it names some and a line within it runs one; they are all its lines name, in order |
| CiScans.JoinedInTurn | tools/ci_mirror_check.py:204-207 | the jobs' stage lists joined are each job's in turn |
| CiMirror.MakeTargets | tools/ci_mirror_check.py:108-119 | `make_targets`: every rule's target and every name of a `.PHONY` line |
| CiScans.TargetsExactly | tools/ci_mirror_check.py:108-119 | a target is one of a rule's or of a `.PHONY` line's |
| CiMirror.CiLocalStages | tools/ci_mirror_check.py:99-105 | `ci_local_stages`: the stages among the prerequisites of ci-local's first rule, in order |
| CiScans.LocalStagesExactly | tools/ci_mirror_check.py:99-105 | they are those of the first rule for ci-local, or none |
| CiScans.StagesAmongInOrder | tools/ci_mirror_check.py:104 | a prerequisite that begins with `stage-` gives the rest of it, in its turn; no other gives any |
| CiMirror.StagesAmong | tools/ci_mirror_check.py:104 | a stage is one of ci-local's exactly when its prefixed name is a prerequisite |
| CiMirror.Check | tools/ci_mirror_check.py:181-236 | the faults of jobs and stages gathered: 0 exactly when the check passes |
| CiMirror.MirrorCheck | tools/ci_mirror_check.py:157-236 | `main` past its files' lines: targets, closure, stages and faults, and 0 exactly when the check passes on what the Makefile comes to |
| CiMirror.StagedAreJobs | tools/ci_mirror_check.py:39-96 | every job that runs a stage is one of the jobs the other scan finds |
| CiMirror.CoverExactly | tools/ci_mirror_check.py:186-214 | no stray stage and no faulty one exactly when the stage lists joined are an exact cover |
| CiMirror.JobsMirrored | tools/ci_mirror_check.py:184-200 | every job mirrored exactly when no job names a stray stage and every other job can be reproduced |
| CiMirror.PassesExactly | tools/ci_mirror_check.py:157-236 | with a job, the check passes exactly when jobs without stages can be reproduced and the others' stage lists joined hold each ci-local stage not run elsewhere once and nothing else |
| CiMirror.MirrorPassesExactly | tools/ci_mirror_check.py:157-236 | with a job, it gives 0 exactly when every job running no stage is let off with a reason or is a target ci-local reaches, and the others' stage lists joined hold each ci-local stage not run elsewhere once and nothing else |
| Footprint.MedianOrderless | tools/footprint.py:154-159 | the median does not depend on the order of the peaks |
| Footprint.MedianHalves | tools/footprint.py:154-159 | no more than half the peaks are below the median and no more than half above |
| Footprint.MedianMirrors | tools/footprint.py:154-159 | mirrored peaks have the mirrored median |
| Footprint.MedianExactly | tools/footprint.py:154-159 | twice the median is the sum of two of the peaks: those at the middle place or the middle two, by how many are below and not above |
| Footprint.RankIsOne | tools/footprint.py:154-159 | and only one number stands at a place |
| Footprint.MedianAtMost | tools/footprint.py:154-159 | with fewer than half replaced the median is at most any bound on those left |
| Footprint.MedianAtLeast | tools/footprint.py:154-159 | and at least any bound below them |
| Footprint.MedianPutAbove | tools/footprint.py:154-159 | with half replaced or more it can be put above any number |
| Footprint.MedianHoldsExactly | tools/footprint.py:154-159 | so it stays between all bounds on those left exactly when fewer than half are replaced |
| Footprint.HeldTo | tools/footprint.py:140-151 | `held_to`: each figure past its limit, in the limits' order |
| Footprint.PastExactly | tools/footprint.py:42-48 | what is past the baseline, figure by figure: pods at all, memory and CPU by more than 15 %, disk by more than 10 % |
| Footprint.Judge | tools/footprint.py:162-165 | `judge`: the median, and what is past the baseline |
| Footprint.JudgeReportsNothingExactly | tools/footprint.py:140-165 | nothing is reported exactly when there is no baseline peak or the median is within its limit |
| Footprint.FewOutliersNotReported | tools/footprint.py:140-165 | fewer than half the peaks replaced by anything, with every other within the limit, is not reported |

## Left out

Of the sealing:

- Sealing.ComputeOpened: gives the value's bytes; the source decodes them and raises where they are not UTF-8, which no value `seal` encoded is. Values, plugin ids and names are the bytes they encode to throughout.
- The random nonce: it is given.
- Sealing.ComputeTag: lengths of 2^64 bytes and more, which `struct.pack` refuses, are laid out by their low 64 bits; Sealing.MacDataInjective is for lengths below it, the only ones the source lays out.
- Sealing.AadInjective: asks for NUL-free plugin ids, which the design gives; Sealing.AadConfusedExactly shows it is needed.

Of the wire reader:

- WireReader.ReadFields: group wire types and malformed input are errors as in the source, and no more is said of them; the envelope and report classes over it are not modelled.

Of the identity routes:

- HTTP, threads and the OCI server: requests come one at a time, already parsed, their fields strings.
- The parts of a record that are one constant per table (asset class, lifecycle, template), and calendars, templates, replacements and the candidate search, which change nothing modelled.
- Identity.Upper: `upper()` of ASCII letters only.
- The seeds (venues, equities, cryptocurrencies, referential records, bonds, pools, companies, candidates) are any constants, not the file's own.
- The resolve route (deploy/harness/platform.py:1076-1082), `/e2e/confirm` and `/e2e/licence` (lines 1109-1117) are steps of every run, with the schemes and version a licence also sets left out.

Of the gate:

- Images and the build cache that `drop` and `close` free: what they free shows in the readings given to each step.
- Budgets are given in KB, as the source multiplies them out (tools/gate.py:428).
- Free space, the clock and container listings are given to each step. A reading that fails is not modelled, and times are read in strictly rising order: the samples file's rounding to tenths of a second is ignored.
- `start`'s refusal, `finish`, printed text, the daemon's process, signals and the stop floor.
- Gate.Gate.EndStage: an end with no stage open, where the source stops with a missing file, is an exit of 1; messages are not worded.
- The daemon's samples fall between commands: one written while a command runs, between its own readings, is not modelled.
- ProcessTree.Descendants: asks for one row a pid and a root on no cycle, as `ps` gives; ProcessTree.EndsExactly proves that without the second the loop does not end.

Of the trees:

- TreePath.ComputePick: paths are lists of steps with at most one row number each: the path's text, a second index on one step, `[key=value]` rows and negative indices are left out.
- TreeInPlace.Node.PutAt: goes down by calls in tail position where the source loops, and takes a tree no part of which is shared, as JSON text gives.

Of the rest:

- Pods, nodes and `docker exec`: addresses are the same when rules are put in and taken out, and a rule that does not hold is told by a flag where the source raises.
- CiMirror.MirrorCheck: the lines of the workflows and the Makefile are given as what the patterns see in them, and the allowlist as read; the Makefile exists. Faults are counted, not worded.
- Footprint.Judge: real numbers for floating point, and at least one peak: the median of none raises in the source. Reading charts and baselines is left out.
- The RSA signing of `e2e/dashboard/fake_idp.py`, whose key's factors are not in the file; the line-scanning gates; and the Rust crates, which are module headers and thin wrappers here.
