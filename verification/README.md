# fpbench, modelled in Dafny

fpbench compares fingerprint matchers. This project models the parts of it whose correctness is not
settled by reading one function, and proves what they promise:

- **Publication** (`Publication*.dfy`, `Publisher.dfy`, `ScratchNames.dfy`). Any number of writers race to
  create one immutable file, by hard link or by a sentinel and a rename. `Publication` is a labelled
  transition system at the level of file-system calls, over names and inodes, with crashes between any two
  calls. `PublicationSafety` is the invariant, `PublicationRuns` and `PublicationRefusals` are statements
  about every run and the exact set-ups they hold of, and `Publisher.Site` is `publish_file` itself, loops
  and `try`/`finally` included, with the other writers moving between any two of its calls.
- **A gray8 PNG decoder** (`Png*.dfy`). The cursor over chunks, the in-place unfilter over bytes modulo 256
  (RFC 2083, sections 3.2, 4.1, 6), and the writer beside it.
- **Threshold calibration** (`Rates`, `Scores`, `Calibration`, `SelectionTheorems`, `OperatingPoints`,
  `CalibrationSource`). Exact rates, the optimal boundary under an impostor ceiling, sealing it,
  re-deriving it, and the exact join its input comes from.
- **Score sweeps** (`ScoreSweep`, `FarTarget`, `DescriptiveSweep`, `ScoredSweep`). The tie-atomic sweep, the FAR-target
  selection, and two further sweeps of the same scores.
- **Smaller algorithms.** The integrity recheck over a call graph and what its
  answer means (`RuntimeRecheck`, `RuntimeDispatch`), tiled inference
  (`TiledSurvey`), mutual nearest neighbours (`MutualNearest`), a resumable run (`ResumableRun`), and one
  policy's results shared with a narrower one (`ScalePolicy`, `SharedRun`, `SharedOutputs`).

`dafny verify dfyconfig.toml` checks everything. Every lemma carries `{:induction false}`: no proof rests on
automatic induction.

## What is assumed

- SHA-256 digests and fingerprints are injective, so they are modelled by the content they cover.
- The CRC is any function to 32-bit words. Inflate is any partial function; the PNG round trip also assumes
  that it undoes the writer's deflate.
- Scores are reals; a Python `Decimal` or finite `float` is compared, never computed with.
- The file system makes `link`, `O_EXCL` creation, `replace` and `unlink` atomic. The theorems about
  publication ask for hard links that work for all writers or for none (`Uniform`), and for live scratch
  names of one process fewer than 65536 allocations apart (`Spaced`); `OneWinnerIffUniform` and
  `SafeWindows` prove that neither condition can be dropped.
- Distinct processes have distinct scratch tokens. The source makes them of the low half of the process id
  and two random bytes, once, on import; the model makes them the `token` of a job. A process forked after
  the import keeps its parent's token and counter, which is outside this assumption.
- The scale factor of `scale_policy` is an exact quotient; the source divides in floats. That sharing works
  under nested bands does not depend on it, since both policies divide the same two numbers.
- Detection, description, scoring, the segmentation network and `compare` are deterministic functions; the
  network additionally computes each output cell from the 17 by 17 window under it (`Local`).

## Where the code and its documentation disagree

The model follows the code.

- `_await_publication` says that False means the holder left no target. It looks for the target first and
  for the claim second, so a holder that publishes and releases between the two looks is reported as having
  given the name back. This can happen to a writer exactly when it and another publish by claim
  (`HandedBackWithATargetIffRivalled`).
- `PublishConflictError` is documented as another writer's *different* bytes. It is also raised for a timed
  out wait and for spent claim attempts. For a writer that publishes by link a conflict always means
  different bytes; a writer that publishes by claim can be told of one with no file there at all, or, beside
  another claiming writer of the same payload, with its own bytes there
  (`ConflictWithoutDifferenceIffByClaim`, `RefusedWithNothingIffByClaim`, `RefusedIffTwinned`).
- `unique_temp_path` promises a name no concurrent writer can also choose. That holds within the window
  above: a counter of sixteen bits repeats after 65536 allocations, and the next writer would truncate a file
  still linked to the target (`WrappedNameTruncatesTheTarget`).
- `verify_operating_point` carries the commit and the clock across because neither is inside the
  fingerprint. The clock is not. The commit and the state of the tree are: they stay among the fields that
  `calibration_operating_point_fingerprint` hashes (`FingerprintCoversTheCommit`).
- `build_scope_sweeps` promises a sweep per release. It stores the pooled sweep last under the name
  "pooled", so a release of that name passes the checks and finds the pooled sweep instead of its own, exactly
  when there is another release; alone, its own sweep is the pooled one.
- `runtime_recheck` documents its answer as a statement about the `compare` that runs. The search drops the
  receiver of a call and looks at one class of the resolution order at a time, so a method of another object,
  an override or another entry point can make the answer wrong (`AnotherObjectsMethodMisleads`).
  `AnswersTrulyIffTrustworthy` and `ReceiversDecide` say for which definitions it never is, with and without
  knowing that calls are on `self`. The adapters whose `compare` calls the check on itself are all among them
  (`OwnCheckIsEnough`), and an abstract `compare` in a base does no harm (`AdapterOverSilentBases`).
- It also documents that an adapter whose source cannot be read answers False. Such a class is passed over,
  and the answer is False if and only if no class after it makes it True (`UnreadableDefersToItsBases`,
  `UnreadableCanAnswerYes`).

## Model

| member | source | states |
|---|---|---|
| PublicationSafety.StepInv | src/fpbench/core/atomic_write.py:199-341 | Every call of every writer, crash included, keeps the invariant: one claim holder at a time, a holder about to replace saw no target, every scratch file has one live owner, every answer given is true |
| PublicationSafety.TargetKept | src/fpbench/core/atomic_write.py:242-256 | No step of anybody changes or removes a target that is there: the replace under the claim never reaches a published file, and no write goes through a scratch name linked to it |
| PublicationSafety.ElsewhereInv | src/fpbench/core/atomic_write.py:149-153 | Scratch names taken for other paths by the same process disturb nothing |
| PublicationSafety.TicketsCollide | src/fpbench/core/atomic_write.py:149-153 | Two allocations share a name when exactly 65536 apart, and never when closer |
| ScratchNames.Counter.UniqueTempPath | src/fpbench/core/atomic_write.py:134-153 | The wrapped counter hands out the name that the number of the allocation determines |
| ScratchNames.FreshForHowLong | src/fpbench/core/atomic_write.py:134-153 | No later name equals a given one for exactly 65535 further allocations |
| PublicationRuns.WrittenOnce | src/fpbench/core/atomic_write.py:199-341 | In every run, a target that has appeared holds one winner's complete payload, and is the same file with the same bytes at every later moment |
| PublicationRuns.OutcomesAreTruthful | src/fpbench/core/atomic_write.py:94-100 | In every run: PUBLISHED means one's own bytes are there and at most one writer is told so; ALREADY_IDENTICAL means the bytes are equal; a conflict between digests means they differ |
| PublicationRuns.NoLateWinner | src/fpbench/core/atomic_write.py:284-300 | Once the target exists, a writer that had not won never wins |
| PublicationRuns.NothingLeftBehind | src/fpbench/core/atomic_write.py:251-256 | When every call has ended, none crashed and every sentinel removal worked, the directory holds at most the target |
| PublicationRuns.OneWinnerIffUniform | src/fpbench/core/atomic_write.py:242-250 | At most one PUBLISHED in every run if and only if hard links work for all the writers or for none |
| PublicationRuns.SafeWindows | src/fpbench/core/atomic_write.py:149-153 | Published files stay as published in every run whose live scratch names are fewer than `window` allocations apart, if and only if `window` is at most 65536 |
| PublicationRuns.WrappedNameTruncatesTheTarget | src/fpbench/core/atomic_write.py:149-153 | One allocation further and there is a run in which a scratch open truncates a published file |
| PublicationRefusals.HandedBackWithATargetIffRivalled | src/fpbench/core/atomic_write.py:264-275 | The wait can answer "handed back" with the target there, in some run, if and only if this writer and some other publish by claim |
| PublicationRefusals.ConflictWithoutDifferenceIffByClaim | src/fpbench/core/atomic_write.py:86-91 | A conflict can be raised although no different bytes were published, in some run, if and only if the writer publishes by claim |
| PublicationRefusals.RefusedWithNothingIffByClaim | src/fpbench/core/atomic_write.py:258-281 | A writer can time out, and can run out of attempts, with no file at all, each if and only if it publishes by claim |
| PublicationRefusals.RefusedIffTwinned | src/fpbench/core/atomic_write.py:258-281 | A writer can time out, and can run out of attempts, with its own bytes on disk, each if and only if it and another writer of the same payload publish by claim |
| Publisher.Site.Take | src/fpbench/core/atomic_write.py:199-341 | One file-system call by anybody, appended to the history; a target that was there stays as it was |
| Publisher.Site.AwaitPublication | src/fpbench/core/atomic_write.py:264-281 | Whatever the others do between looks: true exactly when the target appeared; otherwise the claim went, a call failed, or all the looks allowed were spent; undisturbed, the target is seen if it is there and the wait runs out if only the claim is |
| Publisher.Site.ReserveByClaim | src/fpbench/core/atomic_write.py:199-261 | The bounded claim loop ends as winner, loser, timed out, exhausted or faulted, never holds the claim on return, faults only when a call failed, exhausts only after eight attempts, and undisturbed wins or waits as target and claim stand |
| Publisher.Site.CompareWithTheWinner | src/fpbench/core/atomic_write.py:172-191 | Reading the winner's file chunk by chunk under interference ends, on bytes that did not move |
| Publisher.Site.PublishFile | src/fpbench/core/atomic_write.py:303-341 | Under any interference and any fixed choice of failing calls: the outcome is true of the disk, it is the only PUBLISHED, and a target that was there is untouched and not won. It faults only when a call failed, exhausts only after eight attempts, times out only when the looks allowed are spent, and neither of these two with hard links. Undisturbed and with no failing call it publishes, reports the comparison with the target that is there, or waits out a claim |
| PngFilter.RestoreAt | integrations/flx/worker/flx_worker.py:374-401 | Every restored byte is the stored one plus a prediction from restored bytes only, modulo 256 (RFC 2083, section 6) |
| PngFilter.RestoreOfFilter | integrations/flx/worker/flx_worker.py:374-401 | Restoring a filtered line gives the line, for all five filters |
| PngFilter.FilterOfRestore | integrations/flx/worker/flx_worker.py:374-401 | Filtering a restored line gives the stored bytes, for all five filters |
| PngFilter.Nearest | integrations/flx/worker/flx_worker.py:388-400 | The Paeth predictor is the neighbour nearest to the estimate, the left one before the one above and that before the upper left among equals (section 6.6) |
| PngFilter.PaethByDistances | integrations/flx/worker/flx_worker.py:388-400 | One value only is nearest with that order among equals, and it is the predictor |
| PngFilter.RestoredByNeighbours | integrations/flx/worker/flx_worker.py:374-401 | Every restored byte is what its filter makes of the stored byte and its neighbours, with Average said without dividing and Paeth by distances |
| PngFilter.UnfilterLine | integrations/flx/worker/flx_worker.py:374-401 | The in-place left-to-right loops compute exactly the restored line, whatever the filter, and every byte of it is what the filter makes of its neighbours |
| PngRaster.UnfilterOfFilter | integrations/flx/worker/flx_worker.py:364-406 | Every raster under every choice of filter per row comes back from its scanlines |
| PngRaster.FilterOfUnfilter | integrations/flx/worker/flx_worker.py:369-406 | A stream is accepted exactly when its filter bytes are among the five, and is then the encoding of the raster it gives |
| PngRaster.Unfilter | integrations/flx/worker/flx_worker.py:364-406 | The row loop over position, line, previous and pixels gives a raster exactly when all filter bytes are among the five, of the right size, whose every pixel is its stored byte undone from the pixels left, above and upper left of it |
| PngRaster.EveryPixelUndone | integrations/flx/worker/flx_worker.py:364-406 | In raster coordinates, with zeros outside the raster, each pixel is undone by its own row's filter |
| PngDecoder.PackOfUnpack | integrations/nbis/build.py:1340-1346 | Packing the word read from four bytes gives the four bytes |
| PngDecoder.UnpackOfPack | integrations/nbis/build.py:1340-1346 | Reading a packed length or checksum gives it back |
| PngDecoder.WordIsBigEndian | integrations/flx/worker/flx_worker.py:289-302 | A word is read most significant byte first |
| PngDecoder.PrintedLayout | integrations/nbis/build.py:1340-1346 | A printed chunk byte for byte: big-endian length, kind, body, big-endian checksum over kind and body |
| PngDecoder.HeaderExactly | integrations/flx/worker/flx_worker.py:306-326 | A header is read exactly when it is two positive big-endian words, depth 8 and four zeros |
| PngDecoder.ReadPrinted | integrations/flx/worker/flx_worker.py:289-302 | A printed chunk at the front of anything reads back as itself, and the rest follows it |
| PngDecoder.ReadIsPrinted | integrations/flx/worker/flx_worker.py:289-302 | Whatever reads as a chunk is a printed chunk: length, kind, body and checksum account for every byte |
| PngDecoder.WalkedIsPrinted | integrations/flx/worker/flx_worker.py:288-342 | A walk that succeeds has read exactly a list of printed chunks to the last byte |
| PngDecoder.TakeChunk | integrations/flx/worker/flx_worker.py:289-302 | The cursor reads the chunk at its offset and nothing beyond the payload |
| PngDecoder.OneChunk | integrations/flx/worker/flx_worker.py:303-341 | One arm of the walk updates header, stream and end flag, or refuses, as the admission rule says |
| PngDecoder.DecodeGray8Png | integrations/flx/worker/flx_worker.py:272-361 | The loop over a moving offset ends, stays inside the payload and equals the recursive decoder |
| PngRoundTrip.AdmittedIffRules | integrations/flx/worker/flx_worker.py:303-341 | The walk admits a chunk list if and only if it obeys the code's rules, stated without state: nothing after IEND, one readable IHDR before the first IDAT, no animation or colour-policy chunk |
| PngRoundTrip.RefusedByTheFirst | integrations/flx/worker/flx_worker.py:303-341 | The walk refuses for one reason exactly when the first chunk to break the rules behind those before it breaks them for that reason |
| PngRoundTrip.RasterIffEncoded | integrations/flx/worker/flx_worker.py:351-361 | The raster returned is exactly the one whose filtered rows the inflated stream is |
| PngRoundTrip.AcceptedExactly | integrations/flx/worker/flx_worker.py:272-361 | A payload decodes to an image if and only if it is the signature and printed chunks that obey the rules and depict that image |
| PngRoundTrip.RoundTrip | integrations/nbis/build.py:1340-1391 | Whatever the raster, the filters, the cut into IDATs and the ancillary chunks between, decoding the written file gives the raster |
| PngRoundTrip.SplittingIsInvisible | integrations/flx/worker/flx_worker.py:336-361 | Rule-abiding files with one declared size and one compressed stream are accepted with one image or refused for one reason, however the stream is split |
| PngRoundTrip.NothingFollowsAFile | integrations/flx/worker/flx_worker.py:303-304 | No accepted file is the beginning of another |
| Rates.AtMostIsExact | src/fpbench/core/calibration_models.py:158-175 | Cross-multiplied integers decide exactly the order of the two rational rates |
| Rates.PermitsIsExact | src/fpbench/core/calibration_models.py:218-220 | A ceiling covers exactly the observed rates that do not exceed it, an equal one included |
| Rates.ExactRateExactly | src/fpbench/core/calibration_models.py:178-216 | A rate exists exactly for a fraction between nought and one, has its value, and no number but one divides both its parts |
| Rates.ReductionIsInvisible | src/fpbench/core/calibration_models.py:214-220 | Reducing a target by its gcd never changes which observations it covers |
| Rates.CanonicalForm | src/fpbench/core/calibration_models.py:178-216 | Two spellings reduce to one rate if and only if they are the same rational |
| Scores.RegionsNest | src/fpbench/calibration/selection.py:116-125 | Of two boundaries of one direction, one accepts everything the other does |
| Scores.CountingIsFaithful | src/fpbench/calibration/selection.py:116-125 | Counting distinct accepted scores orders accepted sets exactly as inclusion does, ties meaning equality |
| Calibration.TiesAreAtomic | src/fpbench/calibration/selection.py:179-201 | The check over a dictionary of decisions never finds equal scores decided differently |
| Calibration.SelectBoundary | src/fpbench/calibration/selection.py:204-261 | The selection as the code runs it is the selection the theorems below are about |
| SelectionTheorems.ObservedFamilyIsComplete | src/fpbench/calibration/selection.py:128-150 | Any threshold at all, with either comparator of the direction, decides every impostor score as some candidate does |
| SelectionTheorems.SelectionIsOptimal | src/fpbench/calibration/selection.py:204-261 | It refuses only when no impostor comparison has a score; otherwise no admissible threshold anywhere accepts more impostor comparisons, and the choice has the canonical spelling |
| SelectionTheorems.SelectionIsMostPermissive | src/fpbench/calibration/selection.py:204-261 | By rows and quotients alone: the chosen boundary's impostor matches over scored impostor rows do not exceed the ceiling, any boundary of which that is true matches no impostor row that the chosen one does not, and the four counts are numbers of rows |
| SelectionTheorems.CountsAreRows | src/fpbench/calibration/selection.py:153-176 | The counts of a boundary are the numbers of rows of that population with a score, and with a score it accepts |
| SelectionTheorems.OptimalIsUnique | src/fpbench/calibration/selection.py:243-259 | Optimal and canonically spelled leaves exactly one boundary |
| SelectionTheorems.SpelledOnce | src/fpbench/calibration/selection.py:243-252 | Each accepted impostor set has exactly one inclusive spelling, and the empty one a single strict one |
| SelectionTheorems.OnlyImpostorsDecide | src/fpbench/calibration/selection.py:250-252 | Two bodies with the same impostor scores, counted with repetition, select the same boundary or are both refused |
| SelectionTheorems.RowChangesMoveNothing | src/fpbench/calibration/selection.py:128-150 | Permuting rows and adding, removing or rescoring mated rows or failures leaves the boundary where it is |
| OperatingPoints.LabelIgnoresOrder | src/fpbench/calibration/models.py:196-210 | Labelled results have the direction given and the rows given, sorted, whatever their order |
| OperatingPoints.SealedCountsAreConsistent | src/fpbench/core/calibration_models.py:853-931 | The counts of a selected boundary meet every check of the operating point's constructor |
| OperatingPoints.ConstructsExactly | src/fpbench/core/calibration_models.py:777-959 | A point exists exactly for strictly ascending pairs with labels, counts that add up, a ceiling between nought and one that the observed rate does not exceed, and a matching fingerprint |
| OperatingPoints.ValidExactly | src/fpbench/calibration/validation.py:66-183 | Inputs are valid exactly when they are development material off the registry, of one direction and one body of rows, with both populations present |
| OperatingPoints.LeakageComesFirst | src/fpbench/calibration/validation.py:43-104 | Whatever the results are, a binding that is not development material, a missing registry or a protected identity is refused first, each with its own reason |
| OperatingPoints.SealsTheMostPermissive | src/fpbench/calibration/selection.py:264-325 | The sealed point has the most permissive boundary within the ceiling, the artifacts it was given, and nine counts that are numbers of rows |
| OperatingPoints.SealsExactlyWhenValid | src/fpbench/calibration/selection.py:264-325 | Select and seal succeed if and only if the inputs are valid and some impostor comparison has a score |
| OperatingPoints.CompareCounts | src/fpbench/calibration/verify.py:183-189 | The counts are reported reproduced exactly when none differs |
| OperatingPoints.BelongsExactly | src/fpbench/calibration/verify.py:105-154 | Verification goes on exactly when point, protocol, binding and results name one another and one body of rows |
| OperatingPoints.VerifyOperatingPoint | src/fpbench/calibration/verify.py:88-213 | Verification refuses what does not belong together and otherwise reports, field by field, what a re-derivation reproduces |
| OperatingPoints.VerifiesExactlyWhatReseals | src/fpbench/calibration/verify.py:156-213 | A report is clean if and only if sealing again gives the stored point |
| OperatingPoints.SealThenVerify | src/fpbench/calibration/verify.py:88-213 | What is sealed verifies against its own inputs, whenever those are valid and some impostor comparison has a score |
| OperatingPoints.FingerprintCoversTheCommit | src/fpbench/calibration/verify.py:156-168 | Two seals of the same inputs have one fingerprint if and only if commit and tree state agree, whatever the clock |
| OperatingPoints.VerifiedIsOptimal | src/fpbench/calibration/verify.py:170-199 | A verified point has the most permissive boundary within the ceiling, and counts that are numbers of its labelled rows |
| CalibrationSource.VerifyResultSet | src/fpbench/calibration/source.py:97-252 | A result set is accepted if and only if entries, raw records and labels join exactly; what it hands over has the records' direction and identities and, sorted, one row for each entry: its own record's attempt under its own label |
| CalibrationSource.JoinIsOneToOne | src/fpbench/calibration/source.py:120-155 | Entries, records and labels correspond one to one by job and by pair, and the success and failure counts add up to them |
| CalibrationSource.CoverIsCorrespondence | src/fpbench/calibration/source.py:143-155 | Distinct jobs covering one another, each entry's hash matched by the record of its job, is the one-to-one correspondence |
| CalibrationSource.RecordOrderIsInvisible | src/fpbench/calibration/source.py:140-147 | The order of the raw records does not matter |
| CalibrationSource.OneIdentityIffUniform | src/fpbench/calibration/source.py:233-240 | Singleton identity sets mean that all records agree |
| ScoreSweep.TieMovesTogether | src/fpbench/baseline_evaluation/sweep.py:118-127 | From one cut to the next, the accepted count grows by exactly the attempts tied at that score |
| ScoreSweep.BuildScoreSweep | src/fpbench/baseline_evaluation/sweep.py:67-144 | Every point of the incremental sweep counts exactly the attempts at least as good as its cut, in either direction; it is refused exactly for an empty, repeated or one-sided population |
| ScoreSweep.VerifyMonotonicity | src/fpbench/baseline_evaluation/sweep.py:147-158 | The monotonicity check never fires on a sweep |
| ScoreSweep.PointsGrow | src/fpbench/baseline_evaluation/sweep.py:118-140 | Accepted totals increase strictly from point to point |
| ScoreSweep.LastPointAcceptsTheScored | src/fpbench/baseline_evaluation/sweep.py:138-138 | The last point accepts exactly the score-bearing attempts |
| FarTarget.SelectionIsOptimal | src/fpbench/baseline_evaluation/sweep.py:171-190 | No real threshold whose FAR, as a quotient, is within the target has a higher TAR, or the same TAR with a lower FAR |
| FarTarget.SelectionSucceeds | src/fpbench/baseline_evaluation/sweep.py:176-180 | A target in range always has a point, and the FAR of the one chosen does not exceed it |
| FarTarget.EligibleIsAPrefix | src/fpbench/baseline_evaluation/sweep.py:176-176 | The eligible points are the first ones of the sweep |
| FarTarget.TarAndFarIdentifyThePoint | src/fpbench/baseline_evaluation/sweep.py:181-189 | Two points with the same TAR and FAR are one point, so the last two sort keys never decide |
| FarTarget.LaxerTarget | src/fpbench/baseline_evaluation/sweep.py:171-190 | A laxer target never lowers the TAR chosen |
| FarTarget.PooledIsTheSum | src/fpbench/baseline_evaluation/sweep.py:213-217 | Pooled counts at any cut, and pooled denominators, are the sums over the releases |
| FarTarget.BuildScopeSweeps | src/fpbench/baseline_evaluation/sweep.py:193-218 | One sweep per release and one over everything, refused exactly for bad releases, unknown ones or a scope that cannot be swept; every release finds its own sweep if and only if none is named "pooled" or it is the only one |
| FarTarget.PooledLosesItsOwn | src/fpbench/baseline_evaluation/sweep.py:201-218 | With any other release beside it, a release named "pooled" can pass the checks and not find its own sweep |
| FarTarget.PooledIsLarger | src/fpbench/baseline_evaluation/sweep.py:207-217 | Beside another release with genuine attempts, no release has the pooled denominator |
| DescriptiveSweep.WalkTally | V2/experiments/l3_bridge_scale_repair/analysis.py:61-74 | The per-score tallies walked from the best score give the same points as the main sweep |
| DescriptiveSweep.DescriptivePoint | V2/experiments/l3_bridge_scale_repair/analysis.py:36-100 | Over the 250 pairs, the point keyed on TA, -FA and cut has the cut and the counts that the FAR-target selection chooses |
| DescriptiveSweep.SameChoice | V2/experiments/l3_bridge_scale_repair/analysis.py:76-85 | The two keys agree on every sweep: the counts already decide |
| ScoredSweep.GroupScores | V2/experiments/l3_bridge_v1/common.py:72-77 | Two nested loops over the two lists count every score, genuine and impostor apart |
| ScoredSweep.SweepScores | V2/experiments/l3_bridge_v1/common.py:68-95 | Running counts over the groups give, at every cut, the direct counts over each list, or nothing when a list is empty |
| ScoredSweep.ReadoutIsTheSweep | V2/experiments/l3_bridge_v1/common.py:78-95 | On the scores of the same attempts, its lines are the points of the main sweep over scored denominators |
| ScoredSweep.EachRateAgreesIffItsPopulationIsScored | V2/experiments/l3_bridge_v1/common.py:85-93 | Its TAR is the operational one at every point if and only if no genuine attempt failed, its FAR if and only if no impostor attempt did |
| ScoredSweep.RatesAgreeIffNothingFailed | V2/experiments/l3_bridge_v1/common.py:85-93 | TAR, FAR and FRR all agree at every point if and only if nothing failed in either population |
| RuntimeRecheck.SearchClass | src/fpbench/adapters/runtime_recheck.py:75-87 | The worklist ends on cyclic call graphs with duplicate entries, and finds the check if and only if a method calling it is reachable from an entry point |
| RuntimeRecheck.ClassRechecks | src/fpbench/adapters/runtime_recheck.py:52-88 | True exactly when that holds of some readable class of the resolution order |
| RuntimeRecheck.CalledNames | src/fpbench/adapters/runtime_recheck.py:41-49 | The names a method calls, collected whatever they are called on |
| RuntimeRecheck.UnreadableCanAnswerYes | src/fpbench/adapters/runtime_recheck.py:60-66 | A class without source over a base that checks gets a positive answer |
| RuntimeDispatch.AnswersTrulyIffTrustworthy | src/fpbench/adapters/runtime_recheck.py:52-88 | For classes that call their own methods and the check on `self`: a positive answer means that the `compare` an instance dispatches to reaches the check, whatever else the methods do, if and only if `compare` is known to reach it, or every entry point that calls anything is known to be reached from `compare` and no override on the way can lose the check |
| RuntimeDispatch.ReceiversDecide | src/fpbench/adapters/runtime_recheck.py:41-49 | For calls on any object, only a `compare` known to reach the check, or no entry point that calls anything, makes every positive answer true |
| RuntimeDispatch.AnotherObjectsMethodMisleads | src/fpbench/adapters/runtime_recheck.py:41-88 | A `compare` that asks another object to `verify`, beside an unused `verify` that checks, gets a positive answer that is wrong |
| RuntimeDispatch.OwnCheckIsEnough | src/fpbench/adapters/runtime_recheck.py:52-88 | An adapter whose `compare` calls the check on itself is always answered truly, whatever is called on other objects and whatever its bases define |
| RuntimeDispatch.AdapterOverSilentBases | src/fpbench/adapters/runtime_recheck.py:52-88 | So is one whose entry points are all reached from its own `compare`, over bases whose entry points are abstract, when it calls on `self` |
| RuntimeRecheck.UnreadableDefersToItsBases | src/fpbench/adapters/runtime_recheck.py:52-66 | An adapter without readable source gets the answer of the classes after it |
| RuntimeRecheck.ClosedHoldsPath | src/fpbench/adapters/runtime_recheck.py:75-87 | A set closed under in-class calls that holds the entry points holds every name on every call chain |
| TiledSurvey.TileIsWhole | V2/experiments/l3_bridge_v1/pore_worker.py:27-44 | The network on an input slice with a sixteen-pixel overlap gives the part of the whole output under it |
| TiledSurvey.TileAddsOnce | V2/experiments/l3_bridge_v1/pore_worker.py:31-44 | Tiles neither overlap nor leave gaps |
| TiledSurvey.SurveyTile | V2/experiments/l3_bridge_v1/pore_worker.py:31-44 | One step of the loops writes the cells of its own tile once each, with its prediction, and no others |
| TiledSurvey.Survey | V2/experiments/l3_bridge_v1/pore_worker.py:18-45 | For every image, tile size and network each output cell is written exactly once, with its value in its own tile; for a local network that is the value of the whole image and the geometry refusal never comes |
| MutualNearest.CountIsAMatching | V2/scripts/eval_pore_detection.py:39-45 | The count is the size of a matching in which no prediction and no marked point occurs twice |
| MutualNearest.AtMostEitherSide | V2/scripts/eval_pore_detection.py:36-46 | The count exceeds neither side |
| MutualNearest.SidesMaySwap | V2/scripts/eval_pore_detection.py:39-45 | Swapping predictions and marked points leaves the count as it is, ties included |
| MutualNearest.SomethingMatches | V2/scripts/eval_pore_detection.py:36-46 | With something on both sides the count is at least one, for any distances |
| ResumableRun.AlwaysAPrefix | scripts/stage20b_canonical_run.py:170-239 | However often and wherever the run was stopped, the file holds the rows of a prefix of the manifest, in its order |
| ResumableRun.Uninterrupted | scripts/stage20b_canonical_run.py:170-239 | A session that is not stopped leaves one row for every entry of the manifest |
| ResumableRun.NoPairTwice | scripts/stage20b_canonical_run.py:171-173 | No pair is ever stored twice |
| ResumableRun.NothingIsRewritten | scripts/stage20b_canonical_run.py:237-238 | A flushed row keeps its place and content through every later session |
| ResumableRun.InterruptionIsInvisibleIffDistinct | scripts/stage20b_canonical_run.py:104-109 | Every finished history leaves the uninterrupted columns if and only if the manifest names no pair twice |
| ResumableRun.OutcomeFile.Resume | scripts/stage20b_canonical_run.py:170-239 | A session appends, in manifest order, rows for exactly the pending pairs it reaches: all of them when it finishes, as many as survive when it is stopped |
| ScalePolicy.EligibleExactlyWhen | V2/experiments/l3_bridge_scale_repair/analysis.py:10-26 | In exact arithmetic, an image is eligible exactly when a reliable period brings the target inside the band |
| ScalePolicy.DecidedExactlyWhen | V2/experiments/l3_bridge_scale_repair/analysis.py:10-26 | An estimate is decided for every sound declaration and every period but nought, the factor takes the period to the target, and the reason is the estimate's own before the band's |
| ScalePolicy.ShareableIffWithin | V2/experiments/l3_bridge_scale_repair/analysis.py:10-26 | Two policies can share on every image if and only if their targets agree and one band lies inside the other |
| SharedRun.DetectionIsOwn | V2/experiments/l3_bridge_scale_repair/worker.py:131-153 | The "identical eligible scales" refusal comes exactly when the policies cannot share; otherwise the narrower policy's record is its own |
| SharedRun.PairIsOwn | V2/experiments/l3_bridge_scale_repair/execute.py:421-456 | A shared pair result has the status, score, failing sides and reason of a run under the narrower policy alone, and the byte-identity refusal never comes |
| SharedRun.MatchExactly | V2/experiments/l3_bridge_v1/pore_worker.py:309-368 | A pair's result is the only one its two descriptions allow: a side is listed exactly when its own description failed and with that cause, and otherwise the score is the templates' score |
| SharedOutputs.Outputs.DetectAll | V2/experiments/l3_bridge_scale_repair/worker.py:57-163 | The image loop finishes exactly when no image repeats and all policies can share |
| SharedOutputs.Outputs.VerifyResults | V2/experiments/l3_bridge_scale_repair/readout.py:57-130 | The check of the narrower route accepts exactly the records that satisfy its rules for every image and pair; a failure is accepted exactly when each side is listed that failed, with its own cause, and no other |
| SharedOutputs.Outputs.Run | V2/experiments/l3_bridge_scale_repair/execute.py:344-456 | The shared execution finishes exactly on a sound plan whose policies can share. Then every detection is the engine's on the scaled image or the policy's own reason, every description follows its detection, and every pair's score, reason and failing sides follow the descriptions of its two sides |
| SharedOutputs.AcceptedIsDerived | V2/experiments/l3_bridge_scale_repair/readout.py:88-116 | Beside a genuine result of the wide policy, a result the check accepts is what the descriptions of its own sides make |
| SharedOutputs.FinishedRunIsAccepted | V2/experiments/l3_bridge_scale_repair/readout.py:57-130 | The check accepts whatever a finished run leaves |
| SharedOutputs.SharedRunIsOwnRun | V2/experiments/l3_bridge_scale_repair/execute.py:316-456 | With one target and nested bands the whole execution is never refused, is accepted, and gives every pair its own result |

## Left out

- `replace_file`, `publish_bytes`, `publish_text`: thin wrappers over the same calls; the producer that writes bytes in chunks is modelled.
- Creating parent directories, `fsync` and durability after a power loss: not observable in the interleavings modelled.
- Failure to remove a scratch file: modelled as a crash just before the removal.
- An operator who deletes a live claim, and readers that are not writers: outside what the code argues for. What a reader sees is the target, of which every state is described.
- Clocks: how many looks a wait allows is an input, one number for each attempt. Which of a writer's own calls fail is another.
- How a failing call is told apart by its exception: a fault is one step, except where an `except` clause branches on it.
- Pillow and the other decoders, raster synthesis and physical-size chunks of the probe writer: not part of this model.
- The text of messages and findings, and schema, id and commit-hash syntax checks: each is settled by reading one branch.
- Pair ids of the calibration are their lexical ranks, and a score is the number its text denotes.
- The 12-character ids derived from fingerprints, and building the protected registry: the model has the full fingerprints and a set of protected identities.
- `_aligned_attempts` and `common_score_population`: an intersection by id, settled by reading it.
- Rounded float rates in the two descriptive readouts: the model compares exact fractions.
- The row-by-row refusals of `descriptive_points` for unknown statuses and non-finite scores: the rows of the model have neither.
- `rechecks_runtime_per_comparison` unwrapping up to eight delegates, and the caching of its answer.
- The syntax walk behind the calls, nested definitions, and a second method of one name in a class: a class is a map from names to calls.
- Division of the input by 255 before the network: part of the network here.
- A line torn by a crash in the middle of its write: stops fall between flushed rows, as the loop flushes each.
- Environment and identity files of the resumable run, its timings (any values), and the runs of the two earlier stages, whose loops are the same.
- Scale estimation itself, image digests, receipts and timings of the shared execution: a receipt is the flag that a record is shared, and byte equality is equality of templates.
- SharedOutputs.Outputs.VerifyResults: does not model the other routes, the identity and receipt bindings or the portable copies, which are equalities of recorded digests.
- ScalePolicy.EligibleExactlyWhen: does not model the rounding of the float quotient, so a factor within one rounding of a band edge may fall on the other side.
- ScalePolicy.ShareableIffWithin: the images that clash are found among exact quotients, for the same reason.
- RuntimeDispatch.AnswersTrulyIffTrustworthy: speaks of classes whose source is read, of calls that are written whether or not they are executed, and counts as calls on `self` those whose receiver is the name `self`, so not those through `super()` or an alias.
- Engines, adapters, subprocesses, storage formats and reports.
