# Verification of the xemu performance test suite

A Dafny model of four parts of the suite, and proofs of what they promise:

1. **Results file.** The guest prints one record per result, between `[` and `]`
   (`ResultFile`, `TestHost`, `PerfRun`), each value under its own key (`PrintedKeys`,
   `PrintedResults`). The on-disc viewer reads the file back with flag-driven
   line scanners (`ResultReader`, `SampleReader`) and thins long sample lists in place
   (`Sampler`). Reading a finished run returns its records in order (`ResultRoundTrip`,
   `ResultRecovery`); reading a run cut at any byte returns exactly the records already closed;
   the retained samples are every stride-th sample of the first record with the requested id
   (`SampleRecovery`), also from a cut file once that record is closed. The viewer fails a record
   exactly when the guest did (`Verdicts`). `Viewer` maps retained samples to buckets, bins and logical ranges,
   `Statistics` computes median, p95 and MAD, `PlanConfig` loads and applies a resolved plan (`PlanMeaning`).
2. **Functional oracle protocol.** `OracleRecords` and `OracleReport` turn guest records into
   sealed reports (`CanonicalJson`, `ReportSealing`, `Exclusion`), `OracleConsensus` builds
   manifests and checks candidates (`ConsensusSoundness`, `ComparisonCrash`), `FirstDifference`
   locates disagreements, and `DeterminismLedger` accumulates reports (`LedgerConfluence`,
   `LedgerOrder`). `Seals` says what the digests bind. `OracleExample`, `OracleFindings` and
   `OracleWitnesses` build concrete reports.
3. **Guest events.** `EventChecksum` and `EventPort` write frames to the marker port
   (`EventWire`), `EventWatcher` tails the host's marker file, `MarkerEvidence` judges what it
   saw (`WatcherMeaning`).
4. **Disc catalog.** `XisoCatalog` walks the untrusted directory graph of a disc image;
   `XisoImages` packs images independently of the reader.

The modules whose names end in `Meaning`, and `Seals`, `EventWire`, `PrintedKeys`,
`PrintedResults` and `XisoImages`, state what the functions of the other modules compute in words
of their own: literal keys, bytes and texts, without those functions' helpers.

`Text`, `Lists`, `Sorting`, `JsonTree` and `Catalog` hold what several parts share. Code that
updates state is a method, in a class where the source has an object, proved equal to a
specification function; the properties are lemmas about those functions.

Verify with `dafny verify dfyconfig.toml` (Dafny 4.11).

## Conventions

- A file is its text, `None` when it cannot be opened. Texts are sequences of characters; the
  disc image and the port stream are sequences of bytes. `uint32_t` and `uint16_t` arithmetic
  wraps where the source's does, `size_t` is 32 bits wide as on the console.
- `Printable` states what the printers rely on: ids, names and modes without quotes or line
  breaks, and metadata on one line.
- JSON values are a datatype (`JsonTree.Json`). Python's `==` is `PyEq`, which reads `True` as 1
  and 1.0 as 1; `type(a) is type(b)` is `TypeOf`. A report or manifest is what `.get` returns
  for each field, so a missing field and an explicit null are the same there; records keep the
  difference, because the comparison sees it.
- `Codec` holds `canonical_json` and SHA-256. A valid codec's text determines the value, which
  `CanonicalJson` proves of the source's encoding, and its digests are 64 lower-case hexadecimal
  digits. SHA-256 is never assumed to be injective: where a statement needs two particular
  digests to differ, it says which. `OracleExample.ProtocolRuns` exhibits a codec and reports
  that meet the hypotheses of the protocol's theorems together.
- Python exceptions are the `Err` results `Invalid`, `Nondeterminism` and `Crash` (any exception
  that is not the module's own).

## Where the code differs from what it promises

Each failure has an input and an exact condition.

- `Sampler.TrapsExactly`, `SampleRecovery.SamplesRecovered`: with a budget of `m` samples the
  reader divides by zero exactly when a record has more than `(m - 1) * 2^31 + 1` samples,
  because `stride` is 32 bits wide. At the source's only budget, 131072 samples, that takes more
  than 131071 * 2^31 samples, beyond any file the console can hold. The displayed total is the
  count modulo 2^32.
- `Viewer.DisplayedExactly`, `DisplayedEverywhere`: a sample can lie one above the range displayed
  for its bin. It lies inside exactly when its offset times the bin count, divided by the span,
  leaves a remainder of zero or of at most the span minus the bin count. The whole display is right
  exactly when the bin count and the span divide one another. `DisplayedBinMisses`: samples 0, 3
  and 4 fill three bins over a span of five values, and 3 lies above the range displayed for its
  bin.
- `Statistics.P95Exactly`: p95 is right on every list of `n` samples exactly while `95 n + 99` fits
  in 32 bits; `P95MissesRamp` gives a list for every larger `n`. The least such list, of 45,210,182
  samples, takes over 180 MB, which the console does not have.
- `Viewer.ColumnInsideExactly`: a trace column ends one row below the plot exactly when its highest
  sample, or for the mark of the mean its mean, is less than a 159th of the span above the minimum
  (and the span is not zero). `ColumnSticksOut`: the samples 0 and 160.
- `PlanConfig.RetryExactly`, `RetrySelects`: a refused load leaves the ids it had inserted. A plan
  that a new object accepts is then accepted exactly when it lists none of them and their number is
  a multiple of 2^32, so in practice when none is left; and an accepted plan selects exactly its own
  leaves when none was left. `LeftoverSelects` gives a plan that is refused with its own count and
  accepted, selecting a foreign leaf, with a larger one.
- `ConsensusSoundness.ConsensusAcceptsInputsExactly`: `build_consensus` copies raw hashes where
  the validator normalizes them, so a consensus accepts its own inputs exactly when every image,
  job and report hash is already in canonical lower-case form. `OracleFindings.SpelledExample`: two
  valid, agreeing reports whose image hash starts with `0x` form a consensus that refuses both.
- `LedgerOrder.RunsIdenticalExactly`: the ledger depends on the order of its reports exactly when
  two of them bring different work or different hashes for a new key.
  `OracleFindings.BooleanReportsKeepOrder`: two built reports whose known answers are `True` and
  `1` are both accepted, the first one's hashes are kept, and a consensus refuses the pair.
- `ComparisonCrash.ComparisonCrashesExactly`: comparing a valid report raises `AttributeError`
  exactly when its first record that cannot be compared has an explicit null `internal_oracle`, or
  is a diagnostic record with a null policy. `OracleFindings.NullOracleCrashes` gives such a
  report for every digest; `BuiltNeverCrashes` shows that reports from `build_report` never do.

The stored flag `oracle_failed` looks at the first status only (`ResultRecovery.FlagAgreesExactly`,
`Verdicts.FlagIsNotVerdict`). The verdict the viewer shows does not depend on that:
`Verdicts.ViewerAgrees` holds of every printed record.

## Model

| member | source | states |
|---|---|---|
| `TestHost.TestHost.RecordProfileResult` | src/test_host.cpp:287-351 | appends one leaf record, after a comma line unless first, counts it, and advances the plan; nothing happens when results are not saved; what the record shows under each key is `PrintedResults.LeafResultPrinted` |
| `TestHost.TestHost.FinishGroup` | src/test_host.cpp:353-425 | appends one group record and leaves the plan alone; its legacy zeroes and other values are `PrintedResults.GroupResultPrinted` |
| `TestHost.TestHost.WriteSamples` | src/test_host.cpp:332-340 | the loop that defers each comma writes one line per sample, all but the last with a comma |
| `TestHost.TestHost.RecordDescriptor` | src/test_host.cpp:452-470 | returns the catalog entry and makes one step of the plan; groups never touch the plan |
| `TestHost.TestHost.ValidateResolvedPlan` | src/test_host.cpp:472-485 | accepts exactly a plan without unexpected results whose emitted set is the selected set, with the matching message otherwise |
| `TestHost.TestHost.RecordSoftTestOutcome` | src/test_host.cpp:427-442 | a failed test adds one to the 32-bit count, and only the first one is named |
| `TestHost.PlanRun` | src/test_host.cpp:463-468 | over any run, the plan is condemned exactly when some leaf result is foreign or repeated |
| `TestHost.PlanCompletion` | src/test_host.cpp:444-485 | the plan is satisfied exactly when the recorded leaves are a permutation of the selected ids, whatever groups are interleaved |
| `PrintedKeys.LeafPrinted` | src/test_host.cpp:308-344 | for every printable leaf and every key given as a literal text, exactly one line of the record carries the key, and it holds the named field |
| `PrintedKeys.GroupPrinted` | src/test_host.cpp:390-422 | the same of every printable group: iterations, samples and timings are zero, the warm-up count stands under its own key |
| `PrintedResults.LeafResultPrinted` | src/test_host.cpp:295-344 | a leaf result is printed with its catalog id and revision, its verdict and the mode in words, and each of its arguments under its literal key |
| `PrintedResults.GroupResultPrinted` | src/test_host.cpp:380-422 | the same of a group result with its number of children, the multiplier and the warm-up count of the settings |
| `PrintedResults.FailuresCounted` | src/test_host.cpp:298-303 | the counted oracle failures of a run are its leaf results whose metadata holds the failed status |
| `PerfRun.RunTests` | src/main.cpp:165-227 | a run leaves the bracketed file of its records and passes exactly when a configured plan result could be written, the plan accepts the printed leaves, and the 32-bit counts of oracle failures in leaves and of soft failures are zero |
| `PerfRun.PlanVerdict` | src/main.cpp:177-186 | after a run with a plan, the plan verdict is that the printed leaf ids are a permutation of the selected ids |
| `PerfRun.RunIsReadable` | src/main.cpp:180-182 | what any run leaves reads back complete, every result faithfully and in order |
| `ResultReader.ReadStoredResults` | src/result_store.cpp:195-280 | the line loop computes the left-to-right reading of the file's lines |
| `ResultRoundTrip.ApplyRender` | src/result_store.cpp:232-262 | each printed line sets exactly the stored field printed under its key, and every other line sets nothing |
| `ResultRecovery.RoundTrip` | src/result_store.cpp:195-280 | a finished file reads back complete, with exactly its records in order and no error |
| `ResultRecovery.StoredIsFaithful` | src/test_host.cpp:215-259 | a stored record carries the printed id, name, kind, outcome, timing, unit and direction; a group has no measurement |
| `ResultRecovery.CrashRecovery` | src/result_store.cpp:216-275 | for a file cut at any byte, exactly the records whose closing brace lies before the cut are returned, and the file is complete exactly when the final bracket is there |
| `ResultRecovery.FaithfulRecovery` | src/result_store.cpp:195-280 | the records recovered from any cut are faithful to those printed |
| `ResultRecovery.StoredOracleStatus` | src/result_store.cpp:250-254 | the stored flag is set exactly when the first `oracle_status` of the metadata is `FAIL` |
| `ResultRecovery.FirstStatusFails` | src/result_store.cpp:66-80 | the first status is `FAIL` exactly when `FAIL` and a quote stand behind the first status key |
| `ResultRecovery.FlagAgreesExactly` | src/test_host.cpp:34-36 | the flag never reports a failure the guest did not see, and agrees with the guest exactly when no status fails or the first one does |
| `Verdicts.ViewerAgrees` | src/menu_item.cpp:417-419 | the viewer fails a stored leaf or group exactly when its test failed or the guest found a failed status in its metadata |
| `Verdicts.VerdictsSurvive` | src/menu_item.cpp:417-419 | the same of every record of a run, read back from its file cut at any byte |
| `Verdicts.FlagIsNotVerdict` | src/result_store.cpp:250-254 | a printed record with a passing and then a failing status fails although its flag is not set |
| `Sampler.SampleBuffer.KeepEveryOther` | src/result_store.cpp:332-336 | the in-place compaction leaves the values of even index, in order |
| `Sampler.SampleBuffer.AddSample` | src/result_store.cpp:331-344 | one parsed sample changes the buffer as the abstract step does, including the doubled and wrapping stride |
| `Sampler.SamplerRefines` | src/result_store.cpp:330-345 | unless it has trapped, the buffer holds every stride-th sample, the stride is the least power of two that fits, it is approximate exactly when the stride exceeds one, and the total is the count modulo 2^32 |
| `Sampler.SamplerSize` | src/result_store.cpp:292-338 | the buffer never exceeds its limit and is at least half full once approximate |
| `Sampler.TrapsExactly` | src/result_store.cpp:337-340 | for any number of samples, the modulo by a wrapped stride traps exactly when the count exceeds what a 32-bit stride can follow |
| `SampleReader.ReadStoredResultSamples` | src/result_store.cpp:282-358 | the scanner with its early exit computes the reading of the whole file for that id |
| `SampleRecovery.SamplesRecovered` | src/result_store.cpp:282-358 | from any finished file, the viewer holds every stride-th sample of the first record with that id, within its budget, or traps under the exact condition above |
| `SampleRecovery.SamplesSurviveCut` | src/result_store.cpp:282-358 | a file cut at any byte after the closing brace of that record gives the same samples as the finished file |
| `Statistics.CalculateResultStatistics` | src/result_statistics.cpp:22-47 | the deviation loop and the two sorts compute the specified triple, or read outside the sorted list |
| `Statistics.SortAscends` | src/result_statistics.cpp:29 | the sort used by the specification is ascending |
| `Statistics.MedianOptimal` | src/result_statistics.cpp:8-18 | no integer has a smaller sum of absolute deviations than the median |
| `Statistics.P95IsLeast` | src/result_statistics.cpp:33-35 | while the rank fits, p95 is a sample, has 95 percent of the samples at or below it, and is the least such |
| `Statistics.P95Exactly` | src/result_statistics.cpp:33-35 | the sample counts for which p95 is right on every list are exactly those whose rank fits in 32 bits |
| `Statistics.RankExactly` | src/result_statistics.cpp:34 | the computed rank is the nearest rank exactly while its numerator fits in 32 bits |
| `Statistics.MadIsCentral` | src/result_statistics.cpp:37-45 | at least half the samples lie within MAD of the median and at most half strictly nearer |
| `Statistics.PermutationInvariant` | src/result_statistics.cpp:22-47 | all three results ignore the order of the samples |
| `Statistics.MedianExactly` | src/result_statistics.cpp:8-18 | the median is the whole part of half the sum of the two middle samples, by rank among the samples as given |
| `Statistics.MadExactly` | src/result_statistics.cpp:37-45 | MAD is the same of the distances of the samples from the median |
| `Viewer.ScaleIsMonotone` | src/menu_item.cpp:421-430 | plotted heights stay inside the plot and never reverse the order of two values |
| `Viewer.BucketsTile` | src/menu_item.cpp:705-716 | buckets are non-empty, adjacent and cover all retained samples |
| `Viewer.BucketsFitExactly` | src/menu_item.cpp:705-716 | the 32-bit products of all bucket bounds are right exactly while the bucket count times the number of samples is below 2^32 |
| `Viewer.DrawTrace` | src/menu_item.cpp:713-725 | each drawn column has the least, greatest and mean value of its bucket |
| `Viewer.EnvelopesCoverExtremes` | src/menu_item.cpp:706-724 | the bucket envelopes have exactly the global minimum and maximum |
| `Viewer.ColumnInsideExactly` | src/menu_item.cpp:726-733 | a column stays in the plot's width and top, ends at most one row below it, and stays inside exactly when its highest sample and its mean are drawn above the bottom row |
| `Viewer.ColumnSticksOut` | src/menu_item.cpp:726-732 | the samples 0 and 160 make a bar that ends below the plot |
| `Viewer.RangesTileExactly` | src/menu_item.cpp:743-762 | the displayed logical ranges tile the samples exactly when the last bucket starts inside them and the retained ones reach their end |
| `Viewer.RangesTileWhenComplete` | src/menu_item.cpp:758-762 | one retained sample per stride is enough for the ranges to tile |
| `Viewer.TraceOfSampler` | src/result_store.cpp:330-344 | whatever the bounded reader retains of fewer than 2^32 samples, the displayed ranges tile all samples of the record |
| `Viewer.Histogram` | src/menu_item.cpp:780-794 | the counts sum to the number of samples and each bin counts exactly its own |
| `Viewer.ClampIsIdle` | src/menu_item.cpp:787-792 | the clamp never changes a bin index |
| `Viewer.BinsMonotone` | src/menu_item.cpp:787-792 | a larger sample never lands in a lower bin |
| `Viewer.SampleNearDisplayedBin` | src/menu_item.cpp:830-839 | a counted sample lies in the range displayed for its bin or one above it |
| `Viewer.DisplayedExactly` | src/menu_item.cpp:830-839 | a sample lies in the range displayed for its bin exactly when the remainder of its offset times the bin count by the span is zero or at most the span minus the bin count |
| `Viewer.DisplayedEverywhere` | src/menu_item.cpp:830-839 | every value of the span lies in the range displayed for its bin exactly when the bin count and the span divide one another |
| `Viewer.DisplayedBinMisses` | src/menu_item.cpp:780-839 | the samples 0, 3, 4 make three bins, and 3 lies one above the range displayed for its bin |
| `ViewerMeaning.ColumnInWords` | src/menu_item.cpp:705-733 | each of at most 510 columns shows its equal share of the samples at its share of the width, with their least, greatest and whole mean at the heights of their shares of the span |
| `ViewerMeaning.BinInWords` | src/menu_item.cpp:780-792 | a sample falls into the bin, of at most 63, that is the whole part of its share of the span |
| `ViewerMeaning.DisplayInWords` | src/menu_item.cpp:830-839 | the range displayed for a bin goes from where its share of the span starts to the value before that of the next, but never ends before its start nor beyond the maximum |
| `Catalog.FindById` | src/test_catalog.cpp:7-14 | returns an entry with that id, or there is none |
| `Catalog.FindByResult` | src/test_catalog.cpp:16-25 | returns an entry with that suite and result, or there is none |
| `PlanConfig.RuntimeConfig.LoadResolvedPlan` | src/runtime_config.cpp:394-486 | on an object holding anything earlier loads left, a plan is accepted exactly under the stated condition on plan id, leftover ids and plan; the id set, count, masks and flag after acceptance and after refusal are those of the source, and a refusal adds the message of the first violated check |
| `PlanConfig.FreshExactly` | src/runtime_config.cpp:394-486 | on a new object that condition is that the plan alone is well formed, its count that of its tests and its ids distinct known leaves |
| `PlanMeaning.PlanStandsExactly` | src/runtime_config.cpp:394-486 | a new object accepts exactly the plans of schema 2 with a `sha256:` id of 64 digits, this catalog, as many different leaves as counted and whole memory-pressure groups |
| `PlanMeaning.HeaderMessage` | src/runtime_config.cpp:401-422 | a refusal of the members before the tests reports the first violated one, in the source's words |
| `PlanMeaning.EntryMessage` | src/runtime_config.cpp:429-451 | a refused entry reports the first thing wrong with it: no object, no id, an unknown id, a group or a repeated id |
| `PlanMeaning.SelectionMessage` | src/runtime_config.cpp:473-484 | a refused selection reports its count before its memory-pressure groups |
| `PlanConfig.RetryExactly` | src/runtime_config.cpp:448-476 | a plan that a new object accepts is accepted after leftover ids exactly when it lists none of them and they leave the 32-bit count alone |
| `PlanConfig.RetrySelects` | src/runtime_config.cpp:448-473 | an accepted plan selects exactly its own leaves when nothing was left, and more otherwise |
| `PlanConfig.LeftoverSelects` | src/runtime_config.cpp:448-476 | after one leftover leaf a one-leaf plan is refused with its own count and accepted with a count of two |
| `PlanConfig.RuntimeConfig.LoadTests` | src/runtime_config.cpp:424-485 | the loop takes entries up to the first that is no new known leaf, and accepts exactly when it takes all, the count matches all ids then selected, and the memory-pressure groups are whole |
| `PlanConfig.RuntimeConfig.SelectTest` | src/runtime_config.cpp:429-451 | one entry is taken exactly when it names a known leaf not taken before, and otherwise the first thing wrong with it is reported |
| `PlanConfig.MaskBit` | src/runtime_config.cpp:452-471 | a mask has a bit set exactly when some selected leaf of its group carries it |
| `PlanConfig.CheckpointsExactly` | src/runtime_config.cpp:478-484 | the test of a memory-pressure mask passes exactly when no selected leaf is in the group, or its selected leaves carry exactly bits 0 to 4 |
| `PlanConfig.MaskOfSameIds` | src/runtime_config.cpp:452-471 | masks depend only on which leaves are selected |
| `PlanConfig.PlanOrderIrrelevant` | src/runtime_config.cpp:424-485 | the order of the plan's tests changes neither acceptance nor any mask |
| `PlanConfig.EnabledExecutionTests` | src/runtime_config.cpp:702-707 | the map routes exactly the selected leaves to their suites and execution tests |
| `PlanConfig.ApplyConfig` | src/runtime_config.cpp:697-723 | a test stays enabled exactly when some selected leaf routes to it, and exactly the suites with an enabled test are kept, in order |
| `PlanConfig.TestSuite.DisableTests` | src/tests/test_suite.cpp:42-46 | the erasing loop removes exactly the given tests |
| `EventChecksum.EventChecksum` | src/debug_output.cpp:93-103 | the two nested loops compute the CRC of the bytes |
| `EventChecksum.ChecksumLinear` | src/debug_output.cpp:93-103 | the checksum of an exclusive or is the exclusive or of the checksums, for equal lengths |
| `EventChecksum.ResidueZero` | src/debug_output.cpp:156-157 | a frame has residue zero exactly when its last byte is the checksum of the rest |
| `EventChecksum.ChecksumParity` | src/debug_output.cpp:93-103 | the checksum has the bit parity of the message |
| `EventChecksum.OddErrorsDetected` | src/debug_output.cpp:146-157 | any odd number of flipped bits in a frame of any length is detected |
| `EventChecksum.SingleByteErrorsDetected` | src/debug_output.cpp:146-157 | any change within one byte of a frame of any length is detected |
| `EventPort.EventDevice.AppendU16` | src/debug_output.cpp:105-108 | appends the two bytes, low byte first |
| `EventPort.EventDevice.AppendU32` | src/debug_output.cpp:110-114 | the loop appends the four bytes, low byte first |
| `EventPort.EventDevice.EmitMarker` | src/debug_output.h:83-89 | writes the marker exactly when the device answers |
| `EventPort.EventDevice.EmitEvent` | src/debug_output.cpp:132-164 | latches failures, suppresses a pass after one, and otherwise writes the frame of the next sequence number |
| `EventPort.ParseFrameRoundTrip` | src/debug_output.cpp:143-163 | a written frame decodes to the event it was made from |
| `EventPort.ReceiveAll` | src/debug_output.h:24-29 | splitting the stream at the preamble and pairing nibbles recovers every emitted item |
| `EventPort.MarkersOfStream` | src/debug_output.h:20-27 | a receiver that knows only F0 to F2 sees exactly the emitted markers |
| `EventPort.Drive` | src/debug_output.cpp:122-173 | any run of calls leaves on the port exactly the encoding of what the calls send |
| `EventPort.StreamIsFaithful` | src/debug_output.cpp:132-164 | over any run both receivers recover what was sent |
| `EventPort.SequenceIsConsecutive` | src/debug_output.cpp:152 | sent events carry consecutive sequence numbers modulo 2^32 |
| `EventPort.NoPassAfterFailure` | src/debug_output.cpp:134-138 | no PASS frame follows a FAIL call until the next test begins |
| `EventWire.CheckValue` | src/debug_output.cpp:93-103 | the checksum of the digits 1 to 9 is F4, the published check value of the polynomial x^8 + x^2 + x + 1 |
| `EventWire.FrameWire` | src/debug_output.cpp:143-163 | the frame of an event byte by byte: preamble, then the nibbles of version, type code, phase, assertion, sequence, expected, actual, final state and checksum |
| `EventWire.StateIsHistory` | src/debug_output.cpp:116-152 | context, latch and sequence number are functions of the calls so far: the last context set, whether it is open, whether a failure was reported since the last begin, how many frames were sent |
| `EventWire.PortIsHistory` | src/debug_output.cpp:116-173 | what each further call adds to the bytes on the port, from its arguments and the history of calls alone |
| `EventWatcher.GuestEventWatcher.PollOnce` | docs/evidence/pr76-cross-gpu-host-copy-20260911/tooling/run-suite-pr76.py:1096-1144 | one poll is one step of the reading machine: a missing file changes nothing, a recreated or shortened one is read from its beginning |
| `EventWatcher.GuestEventWatcher.Record` | docs/evidence/pr76-cross-gpu-host-copy-20260911/tooling/run-suite-pr76.py:1146-1166 | an event is logged, counted and summarized by its type and sequence, and latches a terminal type or a failure |
| `EventWatcher.GuestEventWatcher.Fail` | docs/evidence/pr76-cross-gpu-host-copy-20260911/tooling/run-suite-pr76.py:1178-1203 | only the first failure is latched, with one termination of the guest |
| `EventWatcher.CompleteAppend` | docs/evidence/pr76-cross-gpu-host-copy-20260911/tooling/run-suite-pr76.py:1123-1124 | reading on from the unfinished line gives the lines of the whole |
| `EventWatcher.PollFromStart` | docs/evidence/pr76-cross-gpu-host-copy-20260911/tooling/run-suite-pr76.py:1104-1114 | the first sight of a new, recreated or truncated file reads it whole on top of the log |
| `EventWatcher.ChunkingInvariance` | docs/evidence/pr76-cross-gpu-host-copy-20260911/tooling/run-suite-pr76.py:1096-1166 | however an append-only stream is split over polls, the log and the unfinished rest equal one parse of its complete lines |
| `EventWatcher.FailureLatchedOnce` | docs/evidence/pr76-cross-gpu-host-copy-20260911/tooling/run-suite-pr76.py:1178-1203 | over any polls of any files exactly the first failure is latched and the guest killed at most once |
| `MarkerEvidence.Validate` | docs/evidence/pr76-cross-gpu-host-copy-20260911/tooling/run-suite-pr76.py:1241-1309 | accepts exactly documents with an observed file, complete alternating boundaries, as many event objects as counted, strictly increasing integer sequences and a terminal end of the workload events; any other JSON value is refused |
| `MarkerEvidence.AcceptsStreamExactly` | docs/evidence/pr76-cross-gpu-host-copy-20260911/tooling/run-suite-pr76.py:1096-1309 | however a stream is split over polls, its evidence is accepted exactly when the boundary markers and events among its complete lines meet those conditions |
| `WatcherMeaning.LogOfLines` | docs/evidence/pr76-cross-gpu-host-copy-20260911/tooling/run-suite-pr76.py:1120-1166 | the log of any lines in words: the objects that are neither blank nor markers, their types and summaries, the last PASS or FAIL, the first FAIL or PROTOCOL_ERROR and one termination for it |
| `WatcherMeaning.AcceptedInWords` | docs/evidence/pr76-cross-gpu-host-copy-20260911/tooling/run-suite-pr76.py:1241-1309 | a stream's evidence is accepted exactly when boundaries alternate and are closed, integer sequence numbers rise and the last workload event is a PASS or a FAIL |
| `WatcherMeaning.DocumentInWords` | docs/evidence/pr76-cross-gpu-host-copy-20260911/tooling/run-suite-pr76.py:1241-1309 | of all JSON values exactly those documents are accepted whose boundaries are those of one or more whole measurements and whose counted objects meet the same conditions |
| `XisoCatalog.EmbeddedCatalog` | utils/package_runner_suite.py:48-82 | always terminates with the specified bytes or error; `XisoImages.EncodedReadsExactly` says for which images the bytes are which |
| `XisoCatalog.ImageReadsExactly` | utils/package_runner_suite.py:48-82 | the reader returns a file exactly for an image with both magic texts whose root directory has 14 bytes to 1 MiB, lies inside it and is readable with that file; the bytes of header and entries are those of `XisoImages.EncodedReadsExactly` |
| `XisoImages.EncodedReadsExactly` | utils/package_runner_suite.py:48-82 | the reader returns a file exactly when the image holds, byte by byte and low byte first, a volume header and a tree of packed distinct entries, one of them `catalog.json`, which names that file at its sector times 2048 |
| `XisoImages.ImageRoundTrip` | utils/package_runner_suite.py:48-82 | the image packed around any file of 2 bytes to 1 MiB gives exactly that file |
| `XisoCatalog.WalkDirectory` | utils/package_runner_suite.py:63-82 | the worklist loop is the walk that visits the entry pushed last |
| `XisoCatalog.VisitCatalog` | utils/package_runner_suite.py:72-76 | meeting an entry succeeds exactly when what is still ahead holds the one catalog |
| `XisoCatalog.WalkReadsExactly` | utils/package_runner_suite.py:63-82 | in any visiting order the walk returns a file exactly when the links from the root form a tree of valid entries within the node limit, with one catalog entry whose span inside the image is that file; entries byte by byte are in `XisoImages.EncodedReadsExactly` |
| `XisoCatalog.OrderIrrelevant` | utils/package_runner_suite.py:77-79 | the visiting order changes neither success nor the bytes |
| `CanonicalJson.EscapePrefix` | utils/oracle_validation.py:41-42 | no character's ASCII escape is a prefix of another character's |
| `CanonicalJson.CanonicalPrefix` | utils/oracle_validation.py:41-42 | before a delimiter or the end, texts that go on equally belong to equal values |
| `CanonicalJson.CanonicalInjective` | utils/oracle_validation.py:41-42 | equal canonical texts come from equal values, objects compared as maps |
| `CanonicalJson.JsonCodecIsValid` | utils/oracle_validation.py:41-46 | the encoding with any digest of 64 hexadecimal digits is a codec the protocol's theorems apply to |
| `CanonicalMeaning.EscapeInWords` | utils/oracle_validation.py:41-42 | printable ASCII stands for itself, seven characters have a short escape, the others four lower-case digits for each UTF-16 unit |
| `CanonicalMeaning.ListInWords` | utils/oracle_validation.py:41-42 | a list is its items' texts, joined by commas, in brackets |
| `CanonicalMeaning.ObjectInWords` | utils/oracle_validation.py:41-42 | an object is its members in the ascending order of their keys, joined by commas, in braces |
| `CanonicalMeaning.TokensInWords` | utils/oracle_validation.py:41-42 | the texts of null, booleans and numbers |
| `FirstDifference.DifferenceExact` | utils/oracle_validation.py:590-611 | no difference is reported exactly for equal trees; a reported path leads through both trees to the first real difference in reading order |
| `OracleRecords.HashText` | utils/oracle_validation.py:73-88 | an accepted hash is given in lower-case hexadecimal of exactly the demanded width |
| `OracleRecords.HashCanonical` | utils/oracle_validation.py:79-88 | a canonical hash is read back as itself |
| `OracleRecords.IntegerHash` | utils/oracle_validation.py:74-78 | the padded text of an integer hash denotes that integer |
| `OracleRecords.NormalizesExactly` | utils/oracle_validation.py:91-118 | normalizing accepts exactly trees without floats whose expected values equal their actual counterparts, and returns them unchanged |
| `OracleRecords.KatsSurviveRemoval` | utils/oracle_validation.py:217-222 | dropping known answers never makes the rest fail |
| `OracleRecords.EligibleRecordHashes` | utils/oracle_validation.py:207-227 | the popping loop leaves exactly the observations that are not excluded, and refuses a record with none left |
| `HashMeaning.HashSpelled` | utils/oracle_validation.py:79-88 | a text is read as exactly the hash it spells: digits in any case, with or without `0x`, with white space around |
| `HashMeaning.IntegerSpelled` | utils/oracle_validation.py:73-88 | an integer is read as its padded digits exactly when it is not negative and they fit; nothing but integers and texts is a hash |
| `HashMeaning.AnswersInWords` | utils/oracle_validation.py:91-118 | known answers hold exactly when there is no float and what `expected`, `expected_x` and `x_expected` say equals `actual`, `actual_x` and `x_actual` where given |
| `RecordMeaning.RecordInWords` | utils/oracle_validation.py:121-303 | which guest records normalize, with which error the others end, and every member of the result: test, contract, compared hashes, policy and internal oracle, by literal names |
| `OracleReport.Normalize` | utils/oracle_validation.py:289-311 | the loop, the sort and the size comparison give the sorted items or the first error |
| `OracleReport.ValidateNormalizedRecords` | utils/oracle_validation.py:423-553 | accepts exactly non-empty lists of well-formed records with distinct identities |
| `OracleReport.ValidateReport` | utils/oracle_validation.py:376-420 | accepts exactly well-formed raw reports whose two identifiers are the hashes of what they seal; `ReportMeaning.ReportStandsExactly` states both on the members, and `Seals.ReplacedRecordsRefused` that replaced records are refused |
| `ReportMeaning.RecordStandsExactly` | utils/oracle_validation.py:423-553 | which records the validator accepts, member by literal member |
| `ReportMeaning.RecordsStandExactly` | utils/oracle_validation.py:423-473 | which lists of records it accepts: non-empty, well formed, no test twice under one contract |
| `ReportMeaning.ReportStandsExactly` | utils/oracle_validation.py:376-420 | which reports it accepts: the members in words, and both identifiers the digests of the literal objects |
| `ReportMeaning.ReportBuilt` | utils/oracle_validation.py:289-358 | a report is built exactly from usable inputs and different records, holds them in the order of test and contract and is sealed over them; otherwise the error is the first one met |
| `Seals.ReportsBound` | utils/oracle_validation.py:341-357 | two valid reports share a functional id exactly when source, backend, image, job and records agree, and a report id exactly when its five parts do, unless just those two texts collide |
| `Seals.ReplacedRecordsRefused` | utils/oracle_validation.py:394-408 | a sealed report whose records are replaced by any other value is refused, unless the two texts collide |
| `ReportSealing.ItemIsRecord` | utils/oracle_validation.py:289-303 | every normalized item is a record the validator accepts |
| `ReportSealing.DuplicatesCounted` | utils/oracle_validation.py:305-310 | the size comparison finds a duplicate exactly when two identities are equal |
| `ReportSealing.BuiltReportIsValid` | utils/oracle_validation.py:314-358 | every non-empty report that is built is accepted by the validator, and so its identifiers bind its contents as `Seals.ReportsBound` says |
| `ReportSealing.RecordOrderIrrelevant` | utils/oracle_validation.py:304-311 | permuting the guest records leaves the whole report, and so both identifiers, unchanged |
| `Exclusion.SameItem` | utils/oracle_validation.py:178-227 | a normalized record does not depend on the values of its excluded observations |
| `Exclusion.ExclusionsDoNotReachReport` | utils/oracle_validation.py:178-227 | changing excluded framebuffer or rendered known-answer values leaves the whole report unchanged while both inputs build |
| `OracleConsensus.ComparisonRecords` | utils/oracle_validation.py:569-587 | the loop gives the comparison view of every record or the first error; `ComparisonMeaning.RecordsCompareExactly` says when two views are equal |
| `OracleConsensus.BuildConsensus` | utils/oracle_validation.py:614-659 | validation, comparability and field-by-field agreement in the source's order, with its errors; `ComparisonMeaning.ConsensusExactlyByRecords` and `ManifestMeaning.ConsensusInWords` state success and result on the reports' own fields |
| `OracleConsensus.ValidateOracle` | utils/oracle_validation.py:717-794 | accepts exactly well-formed consensus or retail manifests whose identifier seals their normalized content |
| `OracleConsensus.ValidateAgainstOracle` | utils/oracle_validation.py:803-831 | passes exactly reports that agree with a valid manifest on backend, image, job and compared records; `ManifestMeaning.AcceptsInWords` states that on their own fields |
| `Seals.ManifestsBound` | utils/oracle_validation.py:717-794 | two valid manifests share an oracle id exactly when class and contents agree, unless just those two texts collide |
| `ManifestMeaning.ManifestStandsExactly` | utils/oracle_validation.py:717-794 | which manifests are accepted: records in words, ascending distinct report ids or owners, as many as counted, and the digest of the literal object |
| `ManifestMeaning.ConsensusInWords` | utils/oracle_validation.py:648-659 | a consensus holds the first report's backend, image, job and records, all report ids ascending, their number and the digest of these |
| `ManifestMeaning.AcceptsInWords` | utils/oracle_validation.py:803-831 | a report passes exactly when it and the manifest are valid, backend, image and job agree and the records compare equal, all on their own fields |
| `ComparisonMeaning.RecordsCompareExactly` | utils/oracle_validation.py:569-587 | two comparable records compare equal exactly when they are equal, or both meet the four literal diagnostic conditions and differ only in the failure count of the internal oracle |
| `ComparisonMeaning.ConsensusExactlyByRecords` | utils/oracle_validation.py:614-646 | consensus succeeds exactly under conditions on the reports' own fields |
| `ManifestMeaning.ConsensusStandsExactly` | utils/oracle_validation.py:614-646 | consensus succeeds exactly for comparable xemu reports, valid in words, of at least two different ids of one kind, that agree pairwise |
| `OracleWitnesses.DiagnosticConsensus` | utils/oracle_validation.py:579-586 | two valid reports whose diagnostic records have failure counts 3 and 4 form a consensus, unless their report-id texts collide |
| `ConsensusSoundness.ConsensusExactly` | utils/oracle_validation.py:614-659 | consensus succeeds exactly when at least two distinct valid xemu reports agree pairwise, a condition on their set alone; on their own fields it is `ComparisonMeaning.ConsensusExactlyByRecords` |
| `ConsensusSoundness.ConsensusOrderIrrelevant` | utils/oracle_validation.py:626-646 | the order of the inputs does not decide success |
| `ConsensusSoundness.ConsensusSound` | utils/oracle_validation.py:614-659 | every report in the form that is built is accepted by the consensus it took part in |
| `ConsensusSoundness.BuiltReportIsCanonical` | utils/oracle_validation.py:326-357 | a built report has canonical hashes |
| `ConsensusSoundness.ConsensusAcceptsInputsExactly` | utils/oracle_validation.py:734-739 | a consensus accepts its inputs exactly when all their hashes are canonical, unless SHA-256 collides on its two seals |
| `ConsensusSoundness.AcceptedCandidatesSame` | utils/oracle_validation.py:803-826 | the order of the inputs does not change which candidates are accepted |
| `ReportSealing.RespelledIsValid` | utils/oracle_validation.py:376-420 | a valid report stays valid when its image hash is spelled in another way |
| `OracleFindings.SpelledConsensusRefuses` | utils/oracle_validation.py:648-659 | two valid reports with a prefixed image hash form a consensus that refuses them, unless SHA-256 collides on its two seals |
| `OracleFindings.SpelledExample` | utils/oracle_validation.py:648-659 | for a concrete codec without that collision the two reports are valid, agree and are refused |
| `ComparisonCrash.ComparisonCrashesExactly` | utils/oracle_validation.py:569-587 | comparing a valid report raises exactly when a record carries such an explicit null and none before it does or has a failed oracle |
| `ComparisonCrash.ConsensusCrashesExactly` | utils/oracle_validation.py:614-659 | building a consensus of valid reports raises exactly when the first report with such a null or a failed oracle has the null first, or comparable, agreeing reports mix integer and text ids |
| `ComparisonCrash.BuiltNeverCrashes` | utils/oracle_validation.py:289-311 | the comparison never raises on a report that was built |
| `ComparisonCrash.BuiltConsensusDecided` | utils/oracle_validation.py:614-659 | a consensus of built reports succeeds or ends in one of the module's own errors |
| `OracleFindings.NullOracleCrashes` | utils/oracle_validation.py:573-574 | for every codec there is a valid sealed report with an explicit null on which the comparison raises |
| `DeterminismLedger.DeterminismLedger.Update` | utils/oracle_validation.py:888-969 | all eligible records are recorded and summarized, or the ledger stays as it was and the error is raised; `Seals.WorksBound` and `Seals.SeparateEntries` say which work shares an entry, `LedgerMeaning.SummaryInWords` what is summarized |
| `DeterminismLedger.DeterminismLedger.Stage` | utils/oracle_validation.py:904-953 | the loop over a copy applies the observations in order, skipping records whose own oracle failed; the observations and their keys are those of `Seals.ObservationSeals` |
| `LedgerMeaning.TakenInWords` | utils/oracle_validation.py:848-893 | the ledger takes exactly valid raw xemu reports of integer surface scale 1 to 4 |
| `LedgerMeaning.SummaryInWords` | utils/oracle_validation.py:908-929 | the summary lists the skipped records with their reasons and the excluded observations with theirs, in order |
| `Seals.ObservationSeals` | utils/oracle_validation.py:834-845 | what a report makes of a record, part by part, and the literal object its key is the digest of |
| `Seals.WorksBound` | utils/oracle_validation.py:834-845 | two units of work share a key exactly when backend, scale, image, job, test and contract agree, unless just those two texts collide |
| `Seals.AcceptedByWork` | utils/oracle_validation.py:930-953 | a new ledger accepts observations exactly when those of one unit of work repeat its hashes and have ids of one kind |
| `Seals.SeparateEntries` | utils/oracle_validation.py:930-953 | different units of work stand under entries of their own, whatever their hashes |
| `OracleWitnesses.ScalesSeparate` | utils/oracle_validation.py:834-845 | two reports at scales 1 and 2 with different hashes are both recorded, under two entries, unless their texts collide |
| `LedgerConfluence.RecordExactly` | utils/oracle_validation.py:931-953 | recording one observation succeeds exactly when its hashes equal those of its key, and changes only that entry's ids and count |
| `LedgerConfluence.ApplyExactly` | utils/oracle_validation.py:907-953 | a run of observations succeeds exactly when they are consistent as a set, and leaves sorted, distinct, counted ids per key |
| `LedgerConfluence.RunsConfluent` | utils/oracle_validation.py:888-953 | reports accepted in one order are accepted in every order, with the same keys, ids and counts and equal hashes |
| `LedgerOrder.FirstWins` | utils/oracle_validation.py:931-953 | a new key gets the work and hashes of its first observation |
| `LedgerOrder.OrderMattersExactly` | utils/oracle_validation.py:907-953 | accepted observations leave one ledger in every order exactly when any two of a new key have equal work and equal hashes |
| `LedgerOrder.RunsIdenticalExactly` | utils/oracle_validation.py:888-953 | accepted reports leave one ledger in every order exactly when any two that bring something for a new key bring equal work and equal hashes |
| `LedgerOrder.RunsIdentical` | utils/oracle_validation.py:931-953 | so they do when no hash tree holds a boolean or an integral float and SHA-256 tells the units of work apart |
| `LedgerConfluence.RepeatChangesNothing` | utils/oracle_validation.py:950-953 | repeating any report of the history is accepted and changes nothing |
| `LedgerConfluence.RecordedIsPermanent` | utils/oracle_validation.py:931-953 | recorded work, hashes and report ids are never changed or removed |
| `LedgerConfluence.LedgerStaysValid` | utils/oracle_validation.py:938-953 | entries stay under their own key with sorted, distinct, counted report ids |
| `OracleFindings.BooleanReportsKeepOrder` | utils/oracle_validation.py:931-941 | for every codec two built reports that answer `True` and `1` are recorded in either order with different ledgers, and form no consensus |
| `OracleExample.ProtocolRuns` | utils/oracle_validation.py:314-358 | two observations of one record build, form a consensus and enter the ledger under the conditions of the theorems above |
| `JsonTree.PlainEquality` | utils/oracle_validation.py:933 | on values without booleans and integral floats Python's equality is equality |
| `Text.ScanDecimal` | src/result_store.cpp:59 | scanning a printed number returns it, whatever blanks precede it and non-digit follows it |
| `Text.LinesOfJoin` | src/result_store.cpp:216 | splitting text written line by line gives the lines back |

## Left out

- `RunTests`: archiving the previous file and writing the plan result are a parameter and absent; the steps of the test driver are any list of printed results and ended tests.
- `RecordProfileResult`, `FinishGroup`: GPU waits, the framebuffer hash, drawing and console output are parameters or absent; the record-writing branch of `FinishDraw` (src/test_host.cpp:207-261) prints the same text as `RecordProfileResult` and is not repeated.
- File system: archiving, directory search, `size_bytes`, read errors after opening, the ledger's lock file and its temporary file and rename; a file is a value and the ledger is replaced in one assignment.
- Stored `expected_value` and `actual_value`, and `failure_reason`: modelled by the reader, but nothing is stated about them, since they come from free-form metadata.
- `ScanUnsigned`: a decimal number beyond `unsigned long` is reduced modulo 2^32, where C leaves the result undefined.
- `CalculateResultStatistics`: `std::sort` is the specified sort; where the wrapped rank points outside the list the result is `None` instead of whatever memory holds.
- `Histogram`: counters are unbounded, and the drawing of bars, labels and cursors is absent.
- `LoadResolvedPlan`: reads a parsed plan object; tiny-json, the remaining configuration keys and the game-load composite section are absent.
- `BucketStart`: computed without wrapping; `BucketsFitExactly` gives the bound, and the reader's budget of 131072 samples stays below it (`BudgetFits`).
- `FindById`: the generated catalog is any list of entries, with the properties each statement asks for.
- `EmitEvent`: port input and output are an availability flag and a byte list; the failure screen is absent.
- `PollOnce`: decoding a JSON line is a parameter; threads, file sharing races and the process-tree kill are absent, the event log file is a list of objects and a kill a counter.
- `HashText`, `IsKat`, `RecordInternalOracle`: letters outside ASCII keep their case, so texts that Python maps to ASCII letters are refused here.
- `JsonTree.Json`: floats are finite, -0.0 is 0.0, and object keys are texts.
- `PyEq`: a float of magnitude 10^16 or more, which Python writes with an exponent, equals no integer here, where Python compares the exact values.
- `TraceOfSampler`: says nothing of records with 2^32 or more samples, whose displayed total has wrapped.
- `BuildReport`: argument types are not enforced beyond the source's own checks, and error messages are absent.
- `build_retail_consensus` and retail sealing, `hash_compare.py`, the overlay and audio oracles, and the reference generators.
- Ledger files edited by hand: the ledger is what updates leave, starting from no file.
- `EmbeddedCatalog`: packaging, the manifest and the category table of the same file are absent.
- The rest of run-suite-pr76.py: process launch, telemetry, capture and summaries.
- Menu navigation, input, autorun timers, device information and the tests themselves.
