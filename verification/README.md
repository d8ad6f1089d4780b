# OMI collector: a verified model of capture, custody and Ogg output

The collector receives 444-byte audio records from a wearable over Bluetooth, keeps them durably until they are published,
places them in UTC, and writes Ogg Opus files. This project models the parts of it that have to be right byte for byte and
proves what they promise. `dafny verify dfyconfig.toml` checks everything.

- **Ogg Opus muxer** (`Ogg*.dfy`). Packets become lacing values, segments, pages and bytes. The specification is a page
  parser and packet reassembler written from section 6 of RFC 3533; sections 3 to 5 of RFC 7845 give the headers and
  granules. The encoder is a class with the mutable state of the source's closure; the CRC trick is a separate
  refinement.
- **Durable drain protocol** (`AudioMachine`, `CaptureRecords`, `CaptureDrain`, `Drain*`, `SourceRuns`, `LegRuns`,
  `SourceRules`, `InternalAudioStore`, `StagedAttempts`, `Authentication`). `CaptureDrain` mirrors the store's checks in
  their order and says what each call decides about the durable state it read. `DrainTheorems` says the same of byte
  streams alone: a drain lays the offered bytes over the accepted ones, and conflicts exactly where a byte differs.
  `SourceRuns` takes this to every run of calls and every commit outcome, and `SourceRules` says in the columns of the
  source, for every source a run reaches, when each call is accepted. The class `InternalAudioStore` then carries the
  code's own state, namely the database, the digest cache with its mutable hash states and the fail-stop flag, and is
  proved to implement the decisions. `StagedAttempt` cuts chunks of any length into bounded drains.
- **Single-owner writer** (`WriterMachine`, `WriterStates`, `WriterHistory`, `WriterLedger`, `WriterPlans`,
  `WriterScenarios`, `AttemptWriter`). The pure machine, and the class whose worker drains a byte arena into a target
  while `Interfere` lets the producer take any number of steps wherever the worker does not hold the lock. The target
  answers each call as it likes; `WriterPlans` says which calls a command is to make, and what the worker calls is that
  plan up to the first error. `WriterHistory` and `WriterLedger` are the invariant: what was handed over, which command
  each call was made for, and how every future was settled; `WriterStates` reads the state of the machine off that
  history. `StagingTarget` says where in the source an append goes, leg after leg, and `CaptureCustody` joins the writer
  to the store: what it delivered is durable at its place, and a sealed source holds what was published.
- **Interval algebra** (`ClockSegments`, `ClockEstimates`, `Intervals`, `SpoolMetrics`, `LossIntervals`, `Sorting`).
  Overlays and sorted sweeps against plain pointwise and set definitions.
- **UTC projection** (`UtcProjection`). The bounded refresh of stale rows, and its convergence.

Four findings are stated as lemmas, each with its exact condition.

- Conflict evidence. When the records of a drain agree and its tail lies behind the frontier and disagrees, the retained
  evidence is the whole record the tail had to begin, which may be an accepted or an offered one, and not the rejected
  bytes. `DrainEvidence.EvidenceMisses` shows one such drain; `EvidenceMissesExactly` says that these are all.
- The start flag. A command failure in `Constructed` makes a later close claim that a start was admitted
  (`WriterMachine.FailureBeforeStart`), and nothing else does (`StartIsRememberedExactly`). The writer never feeds its machine
  such an event: `AttemptWriter.RecordFailure` requires that a start was admitted before, and each of its callers has that.
- The close of the target. When the drain of a close raises, the worker exits and never calls the target's close
  (`WriterScenarios.CloseNeverCalled`); `WriterPlans.CloseIsCalled` says when it is called.
- Empty appends. A command captures its frontier and tail at admission. If an idle turn hands over a tail published after
  that, the drain of the command sends its own tail again, and if that is empty it appends an empty chunk with an empty
  tail (`WriterScenarios.EmptyAppendHappens`). staging_writer.py:180-181 and attempts.py:181-182 refuse it, and the writer
  has failed (`CaptureCustody.EmptyAppendFails`). `WriterPlans.EmptyAppendExactly` says when a drain does so, and
  `WriterLedger.IdleAppendExtends` that an idle turn never does.

SHA-256 is a function parameter from bytes to digests; nothing is assumed of it. A commit is an outcome parameter: confirmed,
or reported as failed while applied or not, and afterwards readable or not. The target of the writer is a function from
call numbers to answers.

## Model

| member | source | states |
|---|---|---|
| OggTheorems.MuxDemux | src/omi_collector/capture/adapters/ogg_opus.py:347-390 | Every stream the writer can write, read by a page parser and packet reassembler written from section 6 of RFC 3533, gives exactly OpusHead, OpusTags and the input packets, for every page split and flush size |
| OggStream.WriteStream | src/omi_collector/capture/adapters/ogg_opus.py:347-390 | Succeeds exactly for a nonempty list of nonempty packets, a 32-bit serial, header fields that fit and at most 2^32 pages; then the bytes and counters are those of the page list `StreamPages`; each error names a cause that holds |
| OggStream.WriteAudio | src/omi_collector/capture/adapters/ogg_opus.py:366-390 | The flush loop writes exactly the audio pages of all packets, whatever the flush size, or reports the first empty packet or the page that no longer fits its 32-bit number |
| OggStream.Take | src/omi_collector/capture/adapters/ogg_opus.py:133-149 | The batch taken is the next slice of the packets, refused exactly if it holds an empty packet, the first of which is named |
| OggStream.EncodeOpusTags | src/omi_collector/capture/adapters/ogg_opus.py:170-177 | The incremental comment header is the whole one; it fails exactly when a length does not fit 32 bits |
| OggEncoder.EncodePages | src/omi_collector/capture/adapters/ogg_opus.py:221-279 | The segment loop yields the wire form of the page list cut at 255 lacing values or 4096 body bytes and fails exactly when a page number leaves 32 bits; the lost-bytes and segmentation errors never occur |
| OggEncoder.PageBuilder.Emit | src/omi_collector/capture/adapters/ogg_opus.py:236-256 | One emission appends exactly one page with the flags, granule, number, lacing and body held, and empties the builder; it fails exactly on an unencodable page |
| OggEncoder.PageBuilder.TakePacket | src/omi_collector/capture/adapters/ogg_opus.py:258-275 | Consuming one packet consumes exactly its segments, emitting each page as soon as it is full, never before appending |
| OggEncoder.PageBuilder.Finish | src/omi_collector/capture/adapters/ogg_opus.py:274-279 | What is held after the last packet becomes the last page; then the pages are the specified ones |
| OggSegments.CutBounds | src/omi_collector/capture/adapters/ogg_opus.py:200-201 | Every page has 1 to 255 lacing values and a body of at most 4096 + 255 bytes, so the guard of `_encode_page` cannot fire |
| OggSegments.PagesBreak | src/omi_collector/capture/adapters/ogg_opus.py:251-275 | On the pages of one flush: every page but the last has 255 lacing values or more than 4096 body bytes, and no page has either before its last segment |
| OggTheorems.AudioPagesBreak | src/omi_collector/capture/adapters/ogg_opus.py:366-390 | Over the audio pages: each one is closed by its size, by the end of a flush, when a whole number of flushes is complete, or by the end of the stream; none is longer than its size allows |
| OggSegments.BodyMatchesLacing | src/omi_collector/capture/adapters/ogg_opus.py:180-182 | Lacing values sum to the body length |
| OggSegments.PacketSegmentAt | src/omi_collector/capture/adapters/ogg_opus.py:180-182 | The j-th lacing value of a packet measures its j-th piece, at byte 255 j |
| OggSegments.SegmentsClose | src/omi_collector/capture/adapters/ogg_opus.py:180-182 | A list of packets never ends on lacing value 255: the last packet is always closed |
| OggPage.ParseWire | src/omi_collector/capture/adapters/ogg_opus.py:192-218 | A written page, whatever follows it, parses back to the page and what follows; the reader recomputes the checksum with the plain CRC |
| OggCrc.PageCrcIsDirectCrc | src/omi_collector/capture/adapters/ogg_opus.py:185-189 | For every byte string the bit-reversed trick through the reflected CRC-32 of section 8 of RFC 1952 is the most-significant-bit-first CRC with polynomial 0x04C11DB7, zero start and no final XOR |
| OggCrc.ChecksumIsReference | src/omi_collector/capture/adapters/ogg_opus.py:185-189 | The number stored in a page is the one a reader computes from the definition |
| OggCrc.UpdateMirrors | src/omi_collector/capture/adapters/ogg_opus.py:185-189 | The reflected register over bit-reversed bytes is at every step the mirror of the direct register |
| OggPage.StoredIsReference | src/omi_collector/capture/adapters/ogg_opus.py:205-218 | The stored checksum is the direct CRC of the page with bytes 22..25 zero |
| OggPage.WireLayout | src/omi_collector/capture/adapters/ogg_opus.py:205-218 | Which byte of a written page holds what: capture pattern, version, flag bits, and granule, serial, sequence and checksum with their low bytes first, then lacing count, lacing and body |
| OggFraming.PagesReassemble | src/omi_collector/capture/adapters/ogg_opus.py:221-279 | Reassembling the pages of any segment list gives the packets of the segment list, wherever the pages were cut and whatever was pending |
| OggFraming.UnlaceSegments | src/omi_collector/capture/adapters/ogg_opus.py:180-182 | Lacing a packet list and unlacing it is the identity, with nothing pending |
| OggFraming.PagesFramed | src/omi_collector/capture/adapters/ogg_opus.py:221-279 | Within a flush pages are numbered consecutively, continued exactly after a page ending on lacing value 255, first and last flagged exactly at the ends, and sized within bounds |
| OggTheorems.StreamIsFramed | src/omi_collector/capture/adapters/ogg_opus.py:347-390 | Over the whole stream: numbers 0..n-1, beginning of stream on the first page only, end of stream on the last only, one serial, continued exactly after a page ending on 255 |
| OggTheorems.HeadersStandAlone | src/omi_collector/capture/adapters/ogg_opus.py:347-365 | OpusHead is alone on page 0, the tags have pages of their own, and audio starts a fresh page after them, as section 3 of RFC 7845 asks |
| OggTheorems.StreamGranules | src/omi_collector/capture/adapters/ogg_opus.py:347-390 | Over all pages of the stream, headers included: 0 where a header is completed, the sample clock of the audio packets completed so far where one is, and 2^64-1 on a page that completes no packet |
| OggTheorems.AudioGranules | src/omi_collector/capture/adapters/ogg_opus.py:366-390 | Each audio page carries the sample clock of the last packet completed on it, or 2^64-1 if none is |
| OggHeaders.HeadDecodes | src/omi_collector/capture/adapters/ogg_opus.py:157-167 | A reader of section 5.1 of RFC 7845 gets the configuration back from the identification header, the signed output gain included |
| OggHeaders.TagsDecode | src/omi_collector/capture/adapters/ogg_opus.py:170-177 | A reader of section 5.2 of RFC 7845 gets the vendor string and every comment back from the comment header, whatever bytes they hold |
| OggHeaders.HeadLayout | src/omi_collector/capture/adapters/ogg_opus.py:157-167 | Which byte of the identification header holds what, low bytes first, the gain in two's complement |
| OggHeaders.TagsLayout | src/omi_collector/capture/adapters/ogg_opus.py:170-177 | Which bytes of the comment header hold the name, the vendor with its length, the count, and the comments |
| OggTheorems.FinalGranule | src/omi_collector/capture/adapters/ogg_opus.py:366-390 | The last granule is the packet count times the samples per packet, modulo 2^64 |
| OggTheorems.StreamReassembles | src/omi_collector/capture/adapters/ogg_opus.py:347-390 | The page list of the stream reassembles to OpusHead, OpusTags and the packets |
| OggReader.ParseWires | src/omi_collector/capture/adapters/ogg_opus.py:282-289 | Concatenated pages parse back to the same list of pages |
| OggReader.ReassembleAppend | src/omi_collector/capture/adapters/ogg_opus.py:282-289 | Reassembly of two page runs in turn is reassembly of their concatenation |
| DrainTheorems.DrainDecides | src/omi_collector/capture/adapters/internal_audio_store.py:834-962 | For every sound source and every request: which drains are refused, which are accepted and which conflict, by agreement of byte streams alone; an accepted one leaves exactly the accepted stream with the offered bytes laid over it, and nothing else changed |
| DrainTheorems.AppendDecides | src/omi_collector/capture/adapters/internal_audio_store.py:877-925 | At the frontier, a drain is accepted exactly if the stored tail begins its first record and its own tail agrees |
| DrainTheorems.ReplayDecides | src/omi_collector/capture/adapters/internal_audio_store.py:933-962 | Inside the committed rows, a drain conflicts exactly if a byte differs, and otherwise only settles the tail |
| DrainTheorems.SettlesTail | src/omi_collector/capture/adapters/internal_audio_store.py:1160-1210 | A tail is resolved to the longer of what is stored and what is offered exactly if they agree; the result is sound |
| DrainMerge.ResolvesTail | src/omi_collector/capture/adapters/internal_audio_store.py:1160-1204 | The branches of `_resolve_tail` come to laying the tail over the stream; a refusal means a malformed tail, a clash means a differing byte |
| DrainMerge.AdvancedUnique | src/omi_collector/capture/adapters/internal_audio_store.py:877-925 | The bytes and the record count determine the whole durable source after a drain, tail metadata included |
| DrainLaws.DrainStores | src/omi_collector/capture/adapters/internal_audio_store.py:834-962 | An accepted drain of n records at ordinal e puts the input at rows e..e+n, keeps every other row, and leaves max(old count, e+n) records |
| DrainLaws.DrainGrows | src/omi_collector/capture/adapters/internal_audio_store.py:834-962 | An accepted drain only extends the stream and the rows |
| DrainLaws.DrainTwice | src/omi_collector/capture/adapters/internal_audio_store.py:834-962 | Repeating an accepted drain is accepted, with any asserted digest, and changes nothing |
| DrainLaws.TailDecides | src/omi_collector/capture/adapters/internal_audio_store.py:859-875 | For every sound source: a tail alone is refused for its form, accepted exactly if it agrees with the stream, and is then laid over it; the stream only grows. Which form is right is `SourceRules.TailsExactly` |
| DrainLaws.PlainDrain | src/omi_collector/capture/adapters/internal_audio_store.py:834-962 | Without an asserted digest a drain is accepted exactly if its form is right and it contradicts no accepted byte |
| DrainSplitting.SplitDrain | src/omi_collector/capture/adapters/attempts.py:189-195 | One drain is accepted exactly if its two parts are, in turn, and leaves the same source |
| DrainEvidence.EvidenceContradicts | src/omi_collector/capture/adapters/internal_audio_store.py:1206-1210 | The retained evidence of a conflict contradicts the accepted bytes if and only if the records disagree or there is no tail behind the frontier the drain reaches |
| DrainEvidence.EvidenceMissesExactly | src/omi_collector/capture/adapters/internal_audio_store.py:834-962 | Said of the request alone: evidence that contradicts nothing is retained if and only if the form, the digest and the tail are right, the records agree, and the tail lies behind the frontier and disagrees |
| DrainEvidence.MissedEvidence | src/omi_collector/capture/adapters/internal_audio_store.py:1171-1210 | What is retained then is the whole record the tail had to begin, stored or offered, under the reason of a tail mismatch |
| DrainEvidence.EvidenceMisses | src/omi_collector/capture/adapters/internal_audio_store.py:1171-1210 | Counterexample, for any record: offered again with a one-byte tail inside it that has another first byte, it is retained itself as the rejected bytes |
| DrainEvidence.ClashContradicts | src/omi_collector/capture/adapters/internal_audio_store.py:1160-1210 | The same for one tail resolution |
| SourceRuns.StreamOnlyGrows | src/omi_collector/capture/adapters/internal_audio_store.py:593-962 | Over every run of prepare, READ_BEGIN, drain, tail, interrupt and seal calls from creation on, each of which may or may not take effect: earlier streams, rows and conflicts are prefixes of later ones, count and digest describe exactly the rows, and a tail sits at the frontier of an incomplete source with 1 to 443 bytes |
| SourceRuns.CallGrows | src/omi_collector/capture/adapters/internal_audio_store.py:593-962 | Every single call keeps a source sound and only extends it |
| SourceRuns.RunGrows | src/omi_collector/capture/adapters/internal_audio_store.py:593-962 | So does every run |
| SourceRuns.ContestKeepsBytes | src/omi_collector/capture/adapters/internal_audio_store.py:1074-1121 | A refused or conflicting call leaves rows, tail, count and digest alone and adds at most one conflict, which blocks a receiving source |
| SourceRuns.ConflictCustody | src/omi_collector/capture/adapters/internal_audio_store.py:1074-1158 | A retained conflict is the only one of its source, filed under its leg; the source is held for that reason, never for an authentication mismatch, and expires exactly if it holds no record |
| LegRuns.DataOnlyInConfirmedLeg | src/omi_collector/capture/adapters/internal_audio_store.py:1497-1517 | In every run from creation on, a source takes data exactly while receiving, for the current leg generation and inside the leg the device confirmed; the refusal for a missing durable leg cannot fire |
| LegRuns.RunKeepsLeg | src/omi_collector/capture/adapters/internal_audio_store.py:639-724 | Over every run the leg columns agree with the phase and the leg generation never decreases |
| LegRuns.CallKeepsLeg | src/omi_collector/capture/adapters/internal_audio_store.py:639-724 | Each call keeps the leg, binds READ_BEGIN to the prepared one, or prepares a new leg with the next generation and no READ_BEGIN |
| SourceRules.TailsExactly | src/omi_collector/capture/adapters/internal_audio_store.py:859-875 | For every source a run from creation reaches: a tail alone is accepted if and only if the source is receiving, the generation is the current one, the ordinal is the record count, a place is left in the leg there, the tail has the right form (1 to 443 bytes that begin a record of the leg, offset 444 times its ordinal), and no byte differs from the accepted one. The longer of the two is then held and nothing else moves; with a differing byte, and only then, it is a conflict |
| SourceRules.DrainsExactly | src/omi_collector/capture/adapters/internal_audio_store.py:834-962 | So for a drain with any digest and tail, in the columns of the source and the numbers of the wire format: when it is accepted, refused and in conflict, and the bytes, count and digest it leaves |
| SourceRules.StreamAt | src/omi_collector/capture/adapters/internal_audio_store.py:163-175 | Where accepted bytes lie: each record is its timestamp, high byte first, and 440 bytes of payload, and the partial record follows the last |
| SourceRules.JoinAt | src/omi_collector/capture/adapters/internal_audio_store.py:834-857 | What a drain offers, as one byte string: record i from byte 444 i on |
| SourceRules.CreatesExactly | src/omi_collector/capture/adapters/internal_audio_store.py:593-637 | Creation takes exactly the ranges of at most 2^32-1 numbers below 2^64 and starts with nothing |
| SourceRules.PreparesExactly | src/omi_collector/capture/adapters/internal_audio_store.py:639-688 | A leg is prepared exactly inside the source and no later than the frontier: the whole source at first, any such leg after an interruption, the same one again; the source is then leg-prepared, with the next generation and no READ_BEGIN |
| SourceRules.BeginsExactly | src/omi_collector/capture/adapters/internal_audio_store.py:690-724 | READ_BEGIN is taken exactly for the current leg while it is prepared or receiving; the source then receives |
| SourceRules.InterruptsExactly | src/omi_collector/capture/adapters/internal_audio_store.py:726-750 | An interruption is always taken: a prepared, leg-prepared or receiving source is then interrupted, any other is unchanged |
| SourceRuns.TerminalStays | src/omi_collector/capture/domain/internal_audio_machine.py:227-260 | No call changes a sealed, blocked, covered or retiring source |
| SourceRuns.SealMeetsNoTail | src/omi_collector/capture/adapters/internal_audio_store.py:752-796 | A seal is accepted exactly for the current leg, the exact count and digest and a complete source that receives or is interrupted, and moves only the phase: the partial-tail refusals cannot fire |
| SourceRuns.OperationTwice | src/omi_collector/capture/adapters/internal_audio_store.py:639-750 | Any accepted call but a seal may be repeated without effect, so an unconfirmed one can be asked again |
| SourceRuns.RetriesStoreOnce | src/omi_collector/capture/adapters/internal_audio_store.py:1243-1281 | Retrying a drain over commits of any outcome stores its records exactly once; success is reported only when they are durable, a rollback only when they are not, fail-stop only when inspection is impossible |
| SourceRuns.AnswersAreCalls | src/omi_collector/capture/adapters/internal_audio_store.py:834-875 | What a store call leaves durable is the state the run semantics gives it |
| InternalAudioStore.InternalAudioStore.CommitDrain | src/omi_collector/capture/adapters/internal_audio_store.py:834-857 | The durable state and the reply are exactly those the decision and the commit outcome determine; only this source is touched |
| InternalAudioStore.InternalAudioStore.AppendDrain | src/omi_collector/capture/adapters/internal_audio_store.py:877-925 | Running digest, cache, tail resolution, transaction and recovery together implement the append decision |
| InternalAudioStore.InternalAudioStore.ReplayOrAppend | src/omi_collector/capture/adapters/internal_audio_store.py:933-962 | The overlap comparison, prefix digest and suffix append together implement the replay decision |
| InternalAudioStore.InternalAudioStore.CommitTail | src/omi_collector/capture/adapters/internal_audio_store.py:859-875 | Implements the tail decision, including recovery |
| InternalAudioStore.InternalAudioStore.DigestState | src/omi_collector/capture/adapters/internal_audio_store.py:1017-1054 | On a cache hit or a rescan alike, the returned hash state absorbed exactly the committed records, and it is a new object that the cache does not hold |
| InternalAudioStore.InternalAudioStore.AbsorbRows | src/omi_collector/capture/adapters/internal_audio_store.py:1017-1048 | The paged scan feeds exactly the rows, whatever the page size |
| InternalAudioStore.InternalAudioStore.PublishDigest | src/omi_collector/capture/adapters/internal_audio_store.py:1056-1058 | Afterwards the cache holds one entry: this source, this checkpoint, and a private copy of the state; it stays right for every source |
| InternalAudioStore.InternalAudioStore.RecoverAmbiguous | src/omi_collector/capture/adapters/internal_audio_store.py:1243-1291 | After an error the recovery says stored exactly when the proposed state is durable and rolled back exactly when the old one is, and fail-stops exactly when it cannot inspect; the unreconciled branch is unreachable |
| InternalAudioStore.InspectionTells | src/omi_collector/capture/adapters/internal_audio_store.py:1269-1279 | The comparison the recovery makes separates the two states an atomic commit can leave, also when only the tail changes |
| InternalAudioStore.InspectionProves | src/omi_collector/capture/adapters/internal_audio_store.py:1269-1279 | Of any durable state that kept the rows: it shows the proposal exactly if its rows are the old ones and the proposed ones, and its source and tail the proposed; it shows the old state exactly if all three are the old ones |
| InternalAudioStore.InternalAudioStore.BlockReplayConflict | src/omi_collector/capture/adapters/internal_audio_store.py:1074-1121 | The conflict transaction leaves exactly the quarantined source or the old one |
| InternalAudioStore.InternalAudioStore.PrepareLeg | src/omi_collector/capture/adapters/internal_audio_store.py:639-688 | Leg preparation by phase, bounds and identity, with errors reported unconfirmed |
| InternalAudioStore.InternalAudioStore.RecordReadBegin | src/omi_collector/capture/adapters/internal_audio_store.py:690-724 | READ_BEGIN binds exactly the prepared leg, a duplicate changes nothing |
| InternalAudioStore.InternalAudioStore.Interrupt | src/omi_collector/capture/adapters/internal_audio_store.py:726-750 | Interruption keeps the durable prefix and tail |
| InternalAudioStore.InternalAudioStore.SealSource | src/omi_collector/capture/adapters/internal_audio_store.py:752-796 | The seal and its recovery report exactly what is durable |
| InternalAudioStore.InternalAudioStore.CreateSource | src/omi_collector/capture/adapters/internal_audio_store.py:593-637 | A bad range creates nothing; a new source is stored exactly if its commit took effect, and the reply says so or the store stops; a known source is refused, or after a database error taken if it is still as created and the store stopped otherwise |
| InternalAudioStore.EntryStillFits | src/omi_collector/capture/adapters/internal_audio_store.py:1056-1061 | A cache entry stays right when its source only grows, so failed and ambiguous commits never leave a wrong one |
| StagedAttempts.StagedAttempt.AcceptChunk | src/omi_collector/capture/adapters/attempts.py:167-198 | A chunk of any length, drained in bounded pieces with the tail on the last, is taken only if the source is then exactly what one unbounded drain leaves; otherwise nothing accepted is lost; over reliable commits exactly the chunks the unbounded drain accepts are taken |
| StagedAttempts.StagedAttempt.CommitRecords | src/omi_collector/capture/adapters/attempts.py:189-195 | The loop over bounded pieces |
| StagedAttempts.StagedAttempt.CommitPartialTail | src/omi_collector/capture/adapters/attempts.py:225-242 | A tail without records goes through the tail decision, which `PartialIsMerge` states in the columns of the source |
| StagedAttempts.ChunkIsMerge | src/omi_collector/capture/adapters/attempts.py:167-198 | A chunk is accepted exactly if it lies in the leg and contradicts no accepted byte, and is then laid over the stream at its offset |
| StagedAttempts.PartialIsMerge | src/omi_collector/capture/adapters/attempts.py:225-242 | For every source a run reaches: a chunk without whole records is accepted exactly at the frontier of a receiving source, with a place left in the leg, if it contradicts no accepted byte, and is then laid over the stream |
| StagedAttempts.LoopStep | src/omi_collector/capture/adapters/attempts.py:189-195 | A bounded drain from one position to the next stands for the drain of everything up to it; a refused piece means a refused whole |
| StagedAttempts.StagedAttempt.SealAttempt | src/omi_collector/capture/adapters/attempts.py:265-291 | A seal names exactly the durable records and their digest, and is given exactly for a complete source after a good matching DONE; otherwise the source is untouched |
| StagingTarget.AppendsKeepPlace | src/omi_collector/capture/adapters/opportunistic_runtime.py:57-70 | However many legs were prepared, the adapter base and the start of the leg cancel: an append goes to the start of the arena plus its offset in the arena; without a leg it counts from the start of the source |
| StagingTarget.LegsMoveTogether | src/omi_collector/capture/adapters/staging_writer.py:113-189 | Over all calls that returned, the base of the adapter and the active start of the staging writer move together |
| StagingTarget.TakesInLastLeg | src/omi_collector/capture/adapters/staging_writer.py:163-189 | With every call returned, the adapter and the staging writer take an append exactly if its offset is a record boundary, it brings something, and its bytes lie inside the last leg prepared |
| StagingTarget.ActiveOfLastReturned | src/omi_collector/capture/adapters/staging_writer.py:113-136 | Whatever raised: the active leg is the last one whose preparation came back, or the whole attempt |
| StagingTarget.BaseOfLastAsked | src/omi_collector/capture/adapters/opportunistic_runtime.py:57-59 | Whatever raised: the base of the adapter is that of the last leg asked for |
| CaptureCustody.DeliveredIsDurable | src/omi_collector/capture/adapters/staging_writer.py:163-189 | Every byte the writer delivered is in the durable stream of the source, at the place its arena has there, whatever legs it came in and whatever else was called |
| CaptureCustody.SealCoversArena | src/omi_collector/capture/adapters/attempts.py:265-291 | When a seal returns, the source is complete without a tail, its digest is that of its rows, and the rows hold the published bytes from where the arena starts on; if the arena was published to the end of the source, the rows are those before the arena and then exactly these bytes |
| Authentication.Authenticate | src/omi_collector/capture/adapters/internal_audio_store.py:398-430 | For every page limit, succeeds exactly when the reachable rows are 0..count-1, well formed, with the checkpoint digest; each fault is reported exactly when it holds |
| Authentication.AuthenticExactly | src/omi_collector/capture/adapters/internal_audio_store.py:398-485 | A table authenticates exactly if behind rows with negative ordinals, which no page reaches, it holds at most 2^32 well-formed records numbered from zero, as many as the checkpoint says, whose bytes have its digest |
| Authentication.Scan | src/omi_collector/capture/adapters/internal_audio_store.py:441-462 | Stops at the first unexpected row, having hashed exactly the rows before it, wherever the pages end |
| Authentication.NextPage | src/omi_collector/capture/adapters/internal_audio_store.py:441-462 | After n expected rows the next page starts at the n-th reachable row; rows with a negative ordinal are never reached |
| Authentication.SoundIsAuthentic | src/omi_collector/capture/adapters/internal_audio_store.py:398-430 | Every reachable source authenticates |
| UtcProjection.StaleProjectionRows | src/omi_collector/capture/adapters/internal_audio_store.py:340-373 | The three scans gather min(limit, stale) different stale rows, in order of revision, source and ordinal, and no stale row left out comes before one of them |
| UtcProjection.ScansPartition | src/omi_collector/capture/adapters/internal_audio_store.py:340-373 | Every stale row meets exactly one scan, no other row meets any |
| UtcProjection.StaleAreCounted | src/omi_collector/capture/adapters/internal_audio_store.py:340-373 | The stale rows counted are those of unpublished sources with another revision or none, each once |
| UtcProjection.ProjectionStore.Refresh | src/omi_collector/capture/adapters/internal_audio_store.py:271-315 | With an unchanged payload exactly min(limit, stale) rows are refreshed to the time the payload gives them, none before a stale row that comes first by revision, source and ordinal; each update meets its row, and no other row changes; with a changed one nothing happens |
| UtcProjection.ProjectionStore.RefreshUntilCurrent | src/omi_collector/capture/adapters/internal_audio_store.py:271-315 | Repeated calls end, and then every unpublished row has the revision of the payload and the nearest second its owning segment gives it; published rows and all other columns are as they were |
| UtcProjection.RefreshKeepsFaithful | src/omi_collector/capture/adapters/internal_audio_store.py:282-300 | Refreshing under any payload keeps the rows of a given revision at the times of that payload |
| UtcProjection.ProjectionStore.ProjectUtcTimestamp | src/omi_collector/capture/adapters/internal_audio_store.py:376-381 | The whole second nearest to the timestamp moved by the offset of the segment that owns the sequence, the later of two equally near; none without an owner or outside 32 bits |
| UtcProjection.ProjectedIsTime | src/omi_collector/capture/adapters/internal_audio_store.py:376-381 | The same of every segment list: the stored time is within half a second of the exact one, ties going up |
| AttemptWriter.AttemptWriter.Run | src/omi_collector/capture/adapters/attempt_writer.py:570-578 | Against every interleaving with the producer: each turn settles a command unless none is outstanding, and a closing worker exits within as many turns as its queue is long. When it exits the queue is empty, every future ever issued is settled exactly once, and the last target call is the close or the append that raised when draining for it. If nothing raised, the operations called are exactly the commands admitted, in order, and all returned |
| AttemptWriter.AttemptWriter.RunCommand | src/omi_collector/capture/adapters/attempt_writer.py:598-623 | A healthy writer, or a close, executes the whole plan of the command; a failed one calls nothing. The future of the command is the last one settled; the worker is done exactly after a close |
| AttemptWriter.AttemptWriter.RunIdle | src/omi_collector/capture/adapters/attempt_writer.py:580-596 | Nothing is called unless reading is under way: nothing failed, no finalization or close was asked for, and a READ_BEGIN has returned with no leg prepared after it. Then the calls are exactly the next append towards a frontier published by then, and exactly one append if anything published was not handed over |
| AttemptWriter.AttemptWriter.Execute | src/omi_collector/capture/adapters/attempt_writer.py:644-669 | The calls made, and the error raised, are exactly the plan of the command, followed up to the first call the target raises on: the appends of its drain, if it has one, then its operation |
| AttemptWriter.AttemptWriter.DrainData | src/omi_collector/capture/adapters/attempt_writer.py:671-700 | The calls are exactly those of the drain: for a command every chunk up to its frontier and then its tail, on an idle turn the one next append; the result tells whether anything was appended, whatever is published meanwhile |
| AttemptWriter.AttemptWriter.HandOver | src/omi_collector/capture/adapters/attempt_writer.py:682-697 | One append is exactly the next slice of the arena with the tail that follows it |
| AttemptWriter.AttemptWriter.RecordFailure | src/omi_collector/capture/adapters/attempt_writer.py:717-749 | The first failure stays latched; every command waiting at that moment fails with it, in order, except a close, which stays on the queue |
| AttemptWriter.AttemptWriter.Publish | src/omi_collector/capture/adapters/attempt_writer.py:347-376 | A frontier is an invalid argument exactly if it is no multiple of 444 inside the arena followed by these tail bytes, fewer than 444; a valid one is rejected exactly when publication is closed; otherwise it or its tail advances exactly if it grows, older and equal ones are no-ops; two tails of one frontier cannot differ, so the conflict never occurs; nothing else moves |
| AttemptWriter.AttemptWriter.Admit | src/omi_collector/capture/adapters/attempt_writer.py:491-519 | A request is admitted exactly if no close was asked for and, but for a close, nothing failed: a start once, a finalization once after preparing, a leg or READ_BEGIN in between, a checkpoint or interruption only while reading is under way. Admitted, its command, with the frontier of the moment, goes to the end of the queue, unless the queue is full and it is no close; otherwise it is the pending close again, ignored, or refused with its kind |
| AttemptWriter.AttemptWriter.NextCommand | src/omi_collector/capture/adapters/attempt_writer.py:638-642 | Commands leave the queue in order |
| WriterHistory.AppendsAreContiguous | src/omi_collector/capture/adapters/attempt_writer.py:671-700 | Every append starts exactly where the delivered bytes end, at a multiple of 444, and brings whole records and fewer than 444 bytes of tail |
| WriterHistory.ChunksTile | src/omi_collector/capture/adapters/attempt_writer.py:671-700 | The nonempty chunks, joined, are the delivered bytes |
| WriterHistory.FinalizedAfterEverything | src/omi_collector/capture/adapters/attempt_writer.py:644-669 | When the target is sealed, asked for a prefix or closed after draining, it has been handed every published byte and the published tail |
| WriterHistory.CheckpointedAfterItsFrontier | src/omi_collector/capture/adapters/attempt_writer.py:644-669 | A checkpoint or interruption follows everything published when it was admitted, and exactly the tail of then unless more was handed over |
| WriterPlans.ExecutionServes | src/omi_collector/capture/adapters/attempt_writer.py:644-669 | Whatever the target answers, executing a command calls appends that come back and then one last call: the operation of the command, or an append of its drain that raised |
| WriterPlans.OperationIsCalled | src/omi_collector/capture/adapters/attempt_writer.py:644-669 | The operation of a command is called if and only if none of the next answers of the target is an error, as many as its drain has appends |
| WriterPlans.CloseIsCalled | src/omi_collector/capture/adapters/attempt_writer.py:662-668 | So it is with the close of the target |
| WriterScenarios.CloseNeverCalled | src/omi_collector/capture/adapters/attempt_writer.py:662-668 | Counterexample, in a history the invariant admits: preparing and READ_BEGIN returned, one byte is published and a close requested; the target refuses the byte, and the worker is done without calling the close of the target |
| WriterPlans.IdleTurnAppends | src/omi_collector/capture/adapters/attempt_writer.py:580-596 | With anything published that is not handed over, the calls of an idle turn are one append from the written offset |
| WriterPlans.EmptyAppendExactly | src/omi_collector/capture/adapters/attempt_writer.py:676-697 | A drain appends an empty chunk with an empty tail if and only if its frontier is where the written bytes end, has no tail, and a tail was handed over there before |
| WriterScenarios.EmptyAppendHappens | src/omi_collector/capture/adapters/attempt_writer.py:671-700 | Such a history: a checkpoint is requested before anything is published, an idle turn hands one byte over, and executing the checkpoint appends neither bytes nor a tail |
| CaptureCustody.EmptyAppendFails | src/omi_collector/capture/adapters/staging_writer.py:180-181 | In every history with the staging writer as target, such an append raises; the writer has failed and at most a close that does not drain follows |
| WriterLedger.EmptyAppendIsResend | src/omi_collector/capture/adapters/attempt_writer.py:695-697 | In every history, such an append is made only for a command whose own tail is empty, at its frontier |
| WriterLedger.IdleAppendExtends | src/omi_collector/capture/adapters/attempt_writer.py:671-700 | In every history, an append on an idle turn brings new bytes or a longer tail, and lies after a READ_BEGIN that returned, with no leg operation returned since |
| WriterLedger.CleanRunServesAll | src/omi_collector/capture/adapters/attempt_writer.py:570-623 | A ledger whose futures are all settled and in which nothing raised holds the operations of the admitted commands, each once and in the order of admission, and all returned |
| WriterHistory.NothingButClose | src/omi_collector/capture/adapters/attempt_writer.py:717-749 | After a target call has raised, at most one more is made: a close that does not drain |
| WriterMachine.FailureIsForever | src/omi_collector/capture/adapters/attempt_writer_machine.py:226-384 | A latched failure survives every event sequence |
| WriterMachine.AtMostOneAdmission | src/omi_collector/capture/adapters/attempt_writer_machine.py:226-384 | Start, finalize and close are each admitted at most once in any event sequence |
| WriterMachine.StageAdvances | src/omi_collector/capture/adapters/attempt_writer_machine.py:226-384 | No event moves the writer backwards |
| WriterMachine.PublicationCloses | src/omi_collector/capture/adapters/attempt_writer_machine.py:298-320 | Publication is admitted exactly before finalization or closing, and never again afterwards |
| WriterMachine.NoDrainAfterFailure | src/omi_collector/capture/adapters/attempt_writer_machine.py:268-317 | After a command failure, in whatever state and whatever follows, the first failure stays latched and no close drains, neither one under way nor one requested later |
| WriterMachine.FailureBeforeStart | src/omi_collector/capture/adapters/attempt_writer_machine.py:268-312 | Counterexample: after a command failure in `Constructed`, a close says the writer was started although no start was admitted |
| WriterMachine.StartIsRememberedExactly | src/omi_collector/capture/adapters/attempt_writer_machine.py:226-384 | After every event sequence from `Constructed` the start flag says whether a start was admitted if and only if no command failed while the writer was still constructed |
| WriterStates.ReadingExactly | src/omi_collector/capture/adapters/attempt_writer_machine.py:329-357 | The writer is reading if and only if nothing failed, neither finalization nor close was asked for, a READ_BEGIN returned, and no leg operation returned after it |
| WriterStates.CallKeepsState | src/omi_collector/capture/adapters/attempt_writer_machine.py:226-384 | A call that returns keeps the state and the history of calls and commands in agreement |
| WriterStates.AdmitKeepsState | src/omi_collector/capture/adapters/attempt_writer_machine.py:226-384 | So does a request that is admitted; a close drains exactly if nothing failed and finalization was asked for or reading is under way |
| WriterStates.VerdictIs | src/omi_collector/capture/adapters/attempt_writer_machine.py:226-384 | The answer to each request depends only on what was asked for and what has returned: checkpoints and interruptions are admitted exactly while reading is under way, publication until finalization or close, and so on with the kind of each refusal |
| ClockEstimates.SegmentsWithEstimates | src/omi_collector/capture/adapters/clock_segments.py:130-146 | Always returns a valid map; each sequence belongs to its confirmed segment, otherwise to the causally latest observation that may speak for it, with the offset of the middle of its host times, otherwise to none |
| ClockEstimates.ApproximateSegments | src/omi_collector/capture/adapters/clock_segments.py:149-163 | The estimates are exactly those of the trusted observations that may speak for some sequence, in order, over exactly the sequences they may speak for |
| ClockEstimates.ApproximateBounds | src/omi_collector/capture/adapters/clock_segments.py:166-200 | Read from the fields of the observations: the bounds hold exactly the sequences below the INFO maximum that lie before the first correction of an initial read, from the boundary of a later read of a known parent on, or else past what the parent knew, otherwise from the INFO minimum on, and past every verified clock write before it |
| ClockEstimates.InitialOwn | src/omi_collector/capture/adapters/clock_segments.py:172-186 | An initial read speaks for its INFO range up to the boundary of its first correction |
| ClockEstimates.LaterOwn | src/omi_collector/capture/adapters/clock_segments.py:187-195 | A later read speaks from its boundary on, or without one past the INFO maximum of its known parent; any other read speaks for its INFO range |
| ClockEstimates.PastWrites | src/omi_collector/capture/adapters/clock_segments.py:203-216 | The boundaries gathered are exactly those of verified operations with a known initial read |
| ClockEstimates.LatestIsOwner | src/omi_collector/capture/adapters/clock_segments.py:130-146 | With distinct orders, the estimate with the greatest causal order covering a sequence is the one found, whatever the list order |
| ClockEstimates.CombinedAt | src/omi_collector/capture/adapters/clock_segments.py:130-146 | Overlaying the sorted estimates and then the confirmed segments gives the pointwise meaning, disjointly |
| ClockEstimates.FromState | src/omi_collector/capture/adapters/clock_segments.py:112-119 | The map of a clock state is valid and gives each sequence the range that holds it, or none if it is in doubt |
| ClockEstimates.ProjectRangeAt | src/omi_collector/capture/adapters/clock_segments.py:244-272 | Cutting the doubted ranges out of a clock range leaves exactly the sequences not in doubt |
| ClockSegments.Overlay | src/omi_collector/capture/adapters/clock_segments.py:219-230 | The loop computes the recursive overlay |
| ClockSegments.OverlaidAt | src/omi_collector/capture/adapters/clock_segments.py:219-241 | An overlay rewrites exactly the sequences the new segment covers |
| ClockSegments.OverlaidDisjoint | src/omi_collector/capture/adapters/clock_segments.py:219-241 | An overlay keeps segments disjoint |
| ClockSegments.MapAccepts | src/omi_collector/capture/adapters/clock_segments.py:104-109 | The ordered non-overlap check accepts exactly the disjoint lists in order of start |
| ClockSegments.SortedMapIsValid | src/omi_collector/capture/adapters/clock_segments.py:130-146 | Disjoint segments, sorted, always pass the check |
| ClockSegments.UtcFor | src/omi_collector/capture/adapters/clock_segments.py:121-127 | The time of the owning segment |
| ClockSegments.UniqueOwner | src/omi_collector/capture/adapters/clock_segments.py:121-127 | In a valid map at most one segment covers a sequence, and it is the one found |
| SpoolMetrics.RejectOverlappingRanges | src/omi_collector/spool_metrics.py:200-209 | The one-pass sweep, which remembers only the furthest end and its owner, rejects exactly when some range of one measurement collides with some range of a measurement with another identity |
| SpoolMetrics.ClashIsOverlap | src/omi_collector/spool_metrics.py:200-209 | For nonempty ranges a clash is a shared sequence number of different artifacts |
| SpoolMetrics.UnprovenHoleRecords | src/omi_collector/spool_metrics.py:212-221 | Holes plus the number of sequence numbers in any range of any measurement is the last end minus the first start over all of them |
| SpoolMetrics.UniqueMeasurements | src/omi_collector/spool_metrics.py:177-181 | The dictionary pass yields the measurements whose identity was not seen before |
| SpoolMetrics.FirstsOfEach | src/omi_collector/spool_metrics.py:177-181 | Those are each artifact once, every artifact, and each as it was first measured |
| SpoolMetrics.FirstsInOrder | src/omi_collector/spool_metrics.py:177-181 | Later measurements only append to them |
| SpoolMetrics.AggregateWindow | src/omi_collector/spool_metrics.py:160-174 | The window counts each artifact once, fails exactly if ranges of two of them collide, its holes are the numbers between first and last in no range, and its share times the total is the holes, or 0 for an empty total |
| SpoolMetrics.AllRangesAre | src/omi_collector/spool_metrics.py:200-201 | The ranges swept are those of every measurement, each under its identity |
| SpoolMetrics.TotalsAdd | src/omi_collector/spool_metrics.py:163-164 | The totals are the sums over the measurements |
| LossIntervals.UnionIntervalStats | src/omi_collector/operator_status.py:564-578 | For nonempty intervals in any order: the size of their union and the number of its maximal runs |
| LossIntervals.QualityAccumulator.AccumulateConfirmedLosses | src/omi_collector/operator_status.py:547-561 | Over all facts with start <= occurred <= end: each lost sequence number of each attempt is counted once, and each run of them once, however the facts overlap; 444 bytes a record |

## Left out

- Files, directories, fsync and the temporary-file protocol of `write_ogg_opus` and `hash_ogg_opus`, and the digest of the written bytes: the muxer model ends at the byte string.
- The lazy packet iterator is a sequence; the multi-stream wrapper around one stream is not modelled.
- SQLite itself: schema installation, migrations, busy timeouts, page and journal estimates, transactions whose rollback cannot be confirmed, and the classification of corruption and storage faults. A commit is atomic with one of the outcomes named above.
- Another writer between the snapshot a call reads and the recheck in its transaction: one store is the only writer of its database, so the rechecks are not repeated in the model.
- Read errors outside the recovery paths, and the publication reader: a failed read changes nothing and is reported.
- Type checks of arguments (`type(x) is int`, bytes-like objects, source identity syntax): the model's types carry them.
- Lifecycle events the store does not raise for these calls (barriers, terminal prefixes, ready custody, retirement) and the cohort and quarantine reducers beyond `classify_conflict`; `closure_frontier` and the columns other components own.
- `StagedAttempt` has the interruption, leg and READ_BEGIN calls only as the store's own; descriptors keep the start, the packet count and the READ_BEGIN columns.
- Threads, locks, condition variables and event loops: a lock section is one atomic step; waking the loop and its shutdown suppression are not modelled, nor is the future of `submit_read_begin` that is failed before admission.
- CaptureCustody.DeliveredIsDurable: takes from the collector that it prepares a leg before it reads (collector.py:338), unless the arena starts where the source does.
- CaptureCustody.SealCoversArena: takes the same from the collector.
- Device leases, thread affinity and the guards of the staging writer's own life cycle (prepared, read begun, sealed, closed).
- The writer's arena is taken as unchanging; overwriting published bytes is outside the model.
- What an operation of the target returns (acknowledgements, the result of a seal): a future succeeds or fails with an error.
- Clock offsets and uncertainties are real numbers; floating-point rounding is not modelled.
- `ClockState.from_payload` is a function parameter; ordered disjoint ranges are what it yields.
- Database revisions and source identities in `UtcProjection` are numbers, which order like the fixed-width hexadecimal text; that different payloads have different revisions is a premise where it is used.
- UtcProjection.RefreshKeepsFaithful: needs that the revision tells this payload from others, because SHA-256 is not modelled.
- InternalAudioStore.InternalAudioStore.PrepareLeg: an error is answered as unconfirmed without saying whether it took effect, as in the code; `SourceRuns.OperationTwice` says why asking again is safe.
- Bluetooth transport, scan diagnostics, command line, journal redaction, packaging and release tooling: plumbing or easy members.
- SpoolMetrics.RejectOverlappingRanges: starts are taken as nonnegative, which the artifact reader checks before.
- LossIntervals.UnionIntervalStats: intervals are taken as nonempty, which the loss projection's validation ensures.
