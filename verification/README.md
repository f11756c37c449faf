# U-Net script core in Dafny

This project models the control and data logic of `u-net.py`, a single
TensorFlow script that trains, evaluates and runs a U-Net on microscopy
images. The network itself, the TensorFlow graph and all file I/O stay
outside the model. What is modelled is the logic that the script wraps
around the network:

- **Manifest reader** (`manifest.dfy`). The quality-control CSV becomes the
  image list: every row after the header with exactly three fields and
  flag `1` contributes its second field, and the list is de-duplicated.
- **Python string operations** (`pystr.dfy`). These are `strip`, `split`,
  `join`, `in` and `replace`, written as Python defines them. `strip`,
  `split`/`join` and `in` are characterised exactly. For `replace`, the
  model proves only the two facts the mode handling needs: an absent
  pattern changes nothing, and a leading occurrence is replaced.
- **Mode dispatch** (`modes.dfy`). The chains of `==` and `in` tests on the
  `--mode` string decide:
  - which stream types and network inputs are set up;
  - whether the orientation ensemble is on;
  - which mode the image generator sees;
  - which session branch runs.
- **Orientation ensemble** (`tumble.dfy`). The forward step expands the
  input batch into its eight dihedral variants. The backward step turns
  each output back and averages the eight.
- **VALID-padding arithmetic and the step count** (`geometry.dfy`).
  - In training only, the 92-pixel crop of truth and weights keeps them
    aligned with the smaller output.
  - In the evaluation modes the truth keeps the input size, 184 pixels
    larger per side than the output.
  - The mosaic is sized to the trimmed extent.
  - The step count is derived from `epochs` with Python's `int(a/b)`,
    and a batch size of 0 raises.
- **Three-class binarization** (`binarize.dfy`). The argmax labels used by
  the metrics, with class 2 folded back into the background.
- **Training loop schedule** (`schedule.dfy`). Which steps log, write a
  summary, save a checkpoint and reset the metrics, and which step
  timings each log line averages.
- **Output naming** (`naming.dfy`). The `.tif` prediction file name and the
  `os.path.join` of the mosaic output.
- **Large-image reassembler** (`mosaic.dfy`, `mosaic_props.dfy`).
  - `Mosaic.Reassembler` is a class whose two `array3` accumulators are
    updated in place, as `mask` and `division_mask` are in the script.
  - Each of its methods is proved equal to a step of a functional model
    (`Mosaic.Flush`, `Enter`, `TileStep`, `Tiles`, `BatchStep`, `Run`).
  - `MosaicProperties` proves what that model promises: which file is
    written when, what its labels are, how many files a batch writes, and
    how the in-place change of the coverage count carries over.

In a few places the script behaves differently from what its names and
comments suggest. The model follows the code in each of them:

- Tiles of one image are never checked to arrive together. A name seen
  earlier starts a new zeroed mosaic, and its save later overwrites the
  earlier file of that name (`MosaicProperties.NewImageStartsFresh`).
- The mosaic is saved twice:
  - at every name change, unthresholded;
  - at the end of every batch, thresholded to 0/1, which changes the
    coverage array in place for the tiles that follow
    (`MosaicProperties.DivisionChangeCarriesOver`).
- Without a checkpoint, the test and prediction branches are silently
  skipped (`Modes.RunBranchMatchesDispatch`).
- A zero logging, summary or checkpoint interval raises a division by
  zero at its first test, and the model records that raise
  (`TrainingSchedule.ScheduleRaises`).

## Model

| member | source | states |
|---|---|---|
| Manifest.Fields | u-net.py:157 | Definition: `line.strip().split(',')`. Its properties are `Manifest.FieldCount`, `PyStr.StripIsTrimmedInfix` and `PyStr.JoinSplit`. |
| Manifest.Kept | u-net.py:158-159 | Definition: three fields, the third exactly `1`. |
| Manifest.Listed | u-net.py:156-160 | Definition, independent of the loop: some line after the header qualifies and names the path. It is used by `Manifest.ReadManifest`. |
| Manifest.Collected | u-net.py:156-160 | Definition: the row-by-row specification of the loop. Its properties are `Manifest.CollectedEntries` and `Manifest.CollectedListed`. |
| Manifest.ReadManifest | u-net.py:152-161 | A path is in the result exactly when some row after the header has three comma-separated fields (after stripping), flag `1` and that path as its second field. No path appears twice. |
| Manifest.CollectRows | u-net.py:156-160 | The loop over `lines[1:]` yields, in order, the second fields of the kept rows (the row-by-row specification `Collected`). An empty file yields nothing. |
| Manifest.Dedup | u-net.py:161 | `list(set(...))`: the same members as the input, each exactly once. |
| Manifest.CollectedEntries | u-net.py:156-160 | A path is collected from the first `k` rows exactly when one of rows 1..k-1 is kept and names it. Both directions are proved. |
| Manifest.CollectedListed | u-net.py:156-160 | Over a whole manifest, the collected paths are exactly the listed ones. |
| Manifest.FieldCount | u-net.py:157 | A stripped line has one field more than it has commas, so `len(tmp) == 3` means exactly two commas. |
| Manifest.HeaderIgnored | u-net.py:156 | Two manifests that differ only in their first line list the same paths. |
| PyStr.Strip | u-net.py:157 | Definition of `str.strip()`. Its property is `PyStr.StripIsTrimmedInfix`. |
| PyStr.LastIndexOf | u-net.py:824 | The last position of `c`, or -1: that position holds `c` and no later one does. |
| PyStr.Join | u-net.py:825 | Definition of `c.join(parts)`. Its properties are `PyStr.JoinSnoc` and `PyStr.JoinSplit`. |
| PyStr.Contains | u-net.py:169-190 | Definition of `t in s`. Its exact characterisation is `PyStr.ContainsAt`. |
| PyStr.OccursAt | u-net.py:169-190 | Definition: `t` is the block of `s` at a given start. |
| PyStr.ContainsAt | u-net.py:169-190 | `t in s` holds exactly when `t` is the block of `s` at some start position. |
| PyStr.Replace | u-net.py:262 | Definition of `s.replace(pat, repl)`. Its properties are `PyStr.ReplaceAbsent` and `PyStr.ReplaceLeading`. |
| PyStr.StripIsTrimmedInfix | u-net.py:157 | `strip()` returns a contiguous infix of the line. Everything cut off is whitespace, and the result is empty or starts and ends with a non-whitespace character. |
| PyStr.Split | u-net.py:157 | `split(c)` returns at least one piece, and no piece contains `c`. |
| PyStr.SplitCount | u-net.py:157 | `split(c)` has one piece more than the string has occurrences of `c`. |
| PyStr.JoinSplit | u-net.py:825 | `c.join(s.split(c)) == s` for every string. |
| PyStr.JoinSnoc | u-net.py:825 | Joining one more piece adds exactly one separator and that piece. |
| PyStr.SplitLast | u-net.py:824 | `s.split(c)[-1]` is everything after the last `c` (the whole string when there is none). |
| PyStr.SplitDropLast | u-net.py:825 | `c.join(s.split(c)[:-1])` is the string up to its last `c`, or empty when there is none. |
| PyStr.ContainsSuffix | u-net.py:183 | `t in u + t` always holds. |
| PyStr.ContainsFirstChar | u-net.py:176 | An occurrence of a non-empty `t` in `s` starts at a copy of `t[0]` early enough to leave room for the rest. |
| PyStr.NoRoomForFirstChar | u-net.py:176 | A non-empty `t` does not occur in `s` when `s` has no copy of `t[0]` early enough to leave room for the rest. |
| PyStr.ReplaceAbsent | u-net.py:262 | `replace` leaves a string without the pattern unchanged. |
| PyStr.ReplaceLeading | u-net.py:262 | A leading occurrence of the pattern is replaced, and the rest is processed the same way. |
| Modes.Dispatch | u-net.py:169-190 | Definition of the set-up chain: `== 'train'`, then `'test' in`, then `'predict' in`, then `== 'large_predict'`. Its properties are `Modes.IsTraining`, `Modes.LargePredictUnreachable` and `Modes.RunBranchMatchesDispatch`. |
| Modes.RunBranch | u-net.py:617-838 | Definition of the run chain, with each non-training test also requiring the checkpoint, and nothing without images. Its properties are `Modes.RunBranchMatchesDispatch` and `Modes.LargePredictIsPredict`. |
| Modes.Tumble | u-net.py:316 | Definition: `'tumble' in mode`. |
| Modes.GeneratorMode | u-net.py:261-264 | Definition: `tumble_` is removed when the ensemble is on. Its property is `Modes.TumblePrefixStripped`. |
| Modes.BuildsMetrics | u-net.py:489 | Definition: `'train' in mode or 'test' in mode`. Its property is `Modes.RunBranchBuildsMetrics`. |
| Modes.DataSource | u-net.py:192-264 | Definition of the pipeline choice. Its properties are `Modes.StoreOnlyForExactModes` and `Modes.TumbleNeverReadsStore`. |
| Modes.IsTraining | u-net.py:169-190 | `is_training` is `True` exactly for mode `train`. It is left unbound exactly when no test of the chain matches. |
| Modes.LargePredictUnreachable | u-net.py:169-190 | Neither the set-up chain nor the run chain can ever select the large-image branch, because `'predict' in mode` is checked first. |
| Modes.LargePredictIsPredict | u-net.py:787-838 | Mode `large_predict` takes the plain prediction branch at both the set-up and the run dispatch point. |
| Modes.LargePredictHasNoTest | u-net.py:176 | `'test' in 'large_predict'` is false. |
| Modes.TumblePrefixStripped | u-net.py:261-264 | With a `tumble_` prefix, the ensemble is on and the generator sees the mode without the prefix. |
| Modes.TumbleTest | u-net.py:296-328 | `tumble_test` runs the evaluation branch with the ensemble, and its generator runs in mode `test`. |
| Modes.RunBranchMatchesDispatch | u-net.py:617-838 | With images found, the run branch is the set-up branch when a checkpoint exists. Without a checkpoint, only training runs. |
| Modes.RunBranchBuildsMetrics | u-net.py:489 | The training and evaluation branches, which read the streaming metrics, always find them built. |
| Modes.StoreOnlyForExactModes | u-net.py:192-264 | A TFRecord or HDF5 store is read only for exactly `train` or `test` with a dataset directory. Otherwise the generator runs with the generator mode. |
| Modes.TumbleNeverReadsStore | u-net.py:192-264 | A `tumble_` mode never reads a store, and its generator runs the mode without the prefix. |
| Modes.TruthAlignedOnlyForTrain | u-net.py:335-337 | Under valid padding the truth has the output's side exactly in mode `train`. Every other matched mode keeps the full input side. |
| Geometry.PaddingOf | u-net.py:332 | Definition: the exact string `VALID` selects valid padding, and every other value selects `SAME`. |
| Geometry.OutputSide | u-net.py:333 | Definition of the output side: the input side less 2 x 92 under valid padding, unknown under `SAME`. Its properties are `Geometry.CropMatchesOutput`, `Geometry.TruthAlignedOnlyInTraining` and `Modes.TruthAlignedOnlyForTrain`. |
| Geometry.MosaicSide | u-net.py:889-892 | Definition of the mosaic side: the recorded side under `SAME`, less 2 x 92 under valid padding. Its property is `MosaicProperties.NewImageStartsFresh`, which binds accumulators of that extent and raises when it is negative. |
| Geometry.PySlice | u-net.py:336 | For in-range bounds, Python's slice is Dafny's subsequence, and it is never longer than the sequence. |
| Geometry.CropToValid | u-net.py:336-337 | Definition of the `92:(side - 92)` crop of rows and columns. Its properties are `Geometry.CropMatchesOutput` and `Geometry.CropEmptyBelowShrink`. |
| Geometry.TruthSide | u-net.py:335-337 | Definition: the truth is cropped only under valid padding with `is_training == True`. |
| Geometry.TruthAlignedOnlyInTraining | u-net.py:335-337 | Under valid padding the truth side equals the output side exactly when training. Otherwise it is the input side, and it is unknown when `is_training` is unbound. |
| Geometry.CropMatchesOutput | u-net.py:336-337 | For sides of at least 184, the cropped truth or weight map has the output's extent, and pixel (i, j) of it is input pixel (i+92, j+92). |
| Geometry.CropEmptyBelowShrink | u-net.py:336-337 | A side below 184 leaves an empty crop. |
| Geometry.TruncDiv | u-net.py:284 | `int(a/b)` truncates toward zero for every sign: its magnitude is the number of whole `|b|` in `|a|` and its sign is the quotient's, which fixes it. On non-negative operands it is floor division. |
| Geometry.StepCount | u-net.py:283-284 | Without epochs the configured step count stands. With epochs, a batch size of 0 raises (`None`), exactly then; a positive batch size gives `epochs` times the floor of images over batch size, and a negative one `epochs` times minus the floor of images over its magnitude. |
| Geometry.StepsAreFullBatches | u-net.py:283-284 | With epochs, the step count is `epochs` times the number of full batches. A partial last batch adds no step. |
| Binarize.ArgMax | u-net.py:430 | The index is in range, its channel is maximal, and every earlier channel is strictly smaller (first index on ties). |
| Binarize.NetworkLabel | u-net.py:429-437 | Definition of the network label for two and three classes. Its property is `Binarize.NetworkLabelIsBinary`. |
| Binarize.TruthLabel | u-net.py:438-442 | Definition of the truth label for two and three classes. Its properties are `Binarize.TruthLabelIsBinary` and `Binarize.SoftTruthKeepsClassTwo`. |
| Binarize.NetworkLabelIsBinary | u-net.py:429-437 | For two or three classes the network label is 0 or 1. It is 1 exactly when channel 1 beats channel 0 and, for three classes, is not beaten by channel 2. |
| Binarize.TruthLabelIsBinary | u-net.py:438-442 | On one-hot truth the truth label is 0 or 1, and it is 1 exactly on class-1 pixels. |
| Binarize.SoftTruthKeepsClassTwo | u-net.py:440-442 | On soft truth the override does not binarize: `[0, 0, 0.5]` keeps label 2. |
| Naming.Basename | u-net.py:824 | The base name contains no separator. |
| Naming.BasenameIsTail | u-net.py:824 | The base name is everything after the last `/`. |
| Naming.Stem | u-net.py:825 | Definition: `'.'.join(name.split('.')[:-1])`. Its properties are `Naming.StemIsPrefix` and `Naming.StemKeepsOut`. |
| Naming.PredictionFileName | u-net.py:822-826 | Definition of the `.tif` file name. Its property is `Naming.PredictionFileNameShape`. |
| Naming.PathJoin | u-net.py:899-902 | Definition of `os.path.join` on POSIX. Its properties are `Naming.PathJoinSeparator` and `Naming.PathJoinBasename`. |
| Naming.StemIsPrefix | u-net.py:825 | The stem is the name up to its last `.`, or empty when there is no `.`. |
| Naming.StemKeepsOut | u-net.py:825 | A character absent from a name is absent from its stem. |
| Naming.PredictionFileNameShape | u-net.py:822-828 | The prediction file name has no separator, ends in `.tif`, and is the base name cut at its last `.` plus `.tif`. A name without `.` gives just `.tif`. |
| Naming.PathJoinSeparator | u-net.py:899-902 | A name not starting with `/`, joined to a non-empty directory not ending in `/`, gets exactly one `/` between them. |
| Naming.PathJoinBasename | u-net.py:899-902 | For every directory, including an empty one or one ending in `/`, the base name of a separator-free name joined to it is the name again. |
| Naming.BasenameAfterSep | u-net.py:824 | Whatever precedes the last `/` is dropped by the base name. |
| TrainingSchedule.WindowStart | u-net.py:676-683 | The first step still in the timing list is at most the current step. Its meaning is `TrainingSchedule.WindowStartIsLastLog`. |
| TrainingSchedule.Steps | u-net.py:666-700 | Definition of the loop, stopping at the first raise. Its properties are `TrainingSchedule.StepsRaise` and `TrainingSchedule.StepsMembership`. |
| TrainingSchedule.Schedule | u-net.py:666-708 | Definition of the whole branch, including the final summary and checkpoint. Its properties are `TrainingSchedule.ScheduleRaises` and `TrainingSchedule.EventsOfSchedule`. |
| TrainingSchedule.Emitted | u-net.py:677-700 | Definition: which event the tests of its step call for. |
| TrainingSchedule.TrainingLoop | u-net.py:663-708 | The loop's events and raise match `Schedule`. The timing list left over holds exactly the steps since the last logging step. |
| TrainingSchedule.WindowStartIsLastLog | u-net.py:676-683 | The timing window starts at 0 or right after a logging step, and no step from there up to the current one logs. |
| TrainingSchedule.Step | u-net.py:677-700 | A pass raises exactly when the log or summary interval is zero, or when the summary test hits and the checkpoint interval is zero. |
| TrainingSchedule.StepsStop | u-net.py:666-700 | Once a step raises, later steps add nothing. |
| TrainingSchedule.StepsRaise | u-net.py:666-700 | The loop raises exactly when it runs at least once and some interval is zero. |
| TrainingSchedule.ScheduleRaises | u-net.py:666-708 | The branch raises exactly when the loop runs with a zero interval, or when the loop does not run and the loop variable was never bound (two classes or fewer). |
| TrainingSchedule.StepMembership | u-net.py:677-700 | A pass adds exactly the events its tests call for at its own step. |
| TrainingSchedule.StepsMembership | u-net.py:666-700 | An event is written in the first `k` steps exactly when its step is among them and its tests call for it. |
| TrainingSchedule.EventsOfSchedule | u-net.py:677-708 | A log line is written at step `i` iff the log test hits, a summary iff the summary test hits or `i` is last, a reset iff the summary test hits, and a checkpoint iff both summary and checkpoint tests hit or `i` is last. |
| TrainingSchedule.LogWindow | u-net.py:676-683 | Every log line averages the timings of a contiguous run of steps. The run ends at its own step, starts at 0 or right after a logging step, and contains no other logging step. |
| TrainingSchedule.FirstStepsDoEverything | u-net.py:677-700 | Steps 0 and 1 log, write a summary, checkpoint and reset, whatever the intervals, and each averages its own timing alone. |
| Tumble.Flip | u-net.py:317 | Mirroring keeps the grid's shape. |
| Tumble.Rot | u-net.py:320-322 | A quarter turn swaps height and width exactly for an odd number of turns. |
| Tumble.FlipFlip | u-net.py:410-411 | Mirroring twice is the identity. |
| Tumble.RotInverse | u-net.py:416-418 | Turning by `k` and then `-k` is the identity. |
| Tumble.FlipConjugatesRot | u-net.py:419-422 | Mirror, turn by `k`, mirror is a turn by `-k`. |
| Tumble.TurnsUndone | u-net.py:416-418 | The backward turns -1, -2, -3 undo the forward turns 1, 2, 3. |
| Tumble.MirroredTurnsUndone | u-net.py:419-422 | Once mirrored back, the backward turns +1, -2, -1 undo the mirrored turns 1, 2, 3. |
| Tumble.RotPeriodic | u-net.py:416-422 | Only the number of turns modulo 4 matters. |
| Tumble.Expand | u-net.py:316-328 | The forward step yields eight times as many square grids. |
| Tumble.Variants | u-net.py:316-328 | The eight variants of one grid in the forward order, the grid itself first. |
| Tumble.VariantsOf | u-net.py:316-328 | The eight outputs that belong to one image of a batch. |
| Tumble.Unrotate | u-net.py:414-422 | The backward rotations keep eight square grids. Their meaning is `Tumble.UnrotateVariants`. |
| Tumble.Mean | u-net.py:425-427 | The cell-wise mean keeps the grid square. Its meaning is `Tumble.MeanOfCopies`. |
| Tumble.Realigned | u-net.py:409-427 | The backward step for one image's eight outputs gives one grid. Its meaning is `Tumble.RealignedVariants`. |
| Tumble.CombineAsWritten | u-net.py:409-427 | The backward step as written always gives a batch of one. Its properties are `Tumble.AsWrittenIsPerImageForOne` and `Tumble.AsWrittenMixesBatchOfTwo`. |
| Tumble.CombinePerImage | u-net.py:409-427 | The corrected backward step gives one grid per image. Its property is `Tumble.PerImageRoundTrip`. |
| Tumble.UnrotateVariants | u-net.py:414-422 | The backward rotations map the eight variants of a grid, mirrored ones mirrored back, to eight copies of it. |
| Tumble.MeanOfCopies | u-net.py:425-427 | The cell-wise mean of copies of one grid is that grid. |
| Tumble.RealignedVariants | u-net.py:409-427 | With the identity for a network, the backward step for one image undoes its forward step. |
| Tumble.ExpandPlacesVariants | u-net.py:316-328 | The forward step puts the variants of image `b` at `b`, `count+b`, ..., `7*count+b`. |
| Tumble.AsWrittenIsPerImageForOne | u-net.py:409-427 | For a batch of one image, the backward step as written is the per-image one. |
| Tumble.EnsembleRoundTrip | u-net.py:316-427 | With the identity for a network, the ensemble as written returns a one-image batch unchanged. |
| Tumble.PerImageRoundTrip | u-net.py:316-427 | With the identity for a network, the corrected per-image ensemble returns every batch unchanged. |
| Tumble.AsWrittenMixesBatchOfTwo | u-net.py:409-427 | For the two 1x1 images 0 and 8, the ensemble as written returns one image holding their mean 4. |
| Mosaic.Zeros | u-net.py:893-898 | `np.zeros` has the requested shape and only zero cells. |
| Mosaic.ReplaceZeros | u-net.py:882 | `d[d == 0] = 1` leaves no zero and keeps every non-zero entry. |
| Mosaic.Labels | u-net.py:883 | Every label is a class index below the class count, over the mosaic's extent. |
| Mosaic.Threshold | u-net.py:909-910 | Thresholding a label map sends 0 to 0 and every other label to 1. |
| Mosaic.Bytes | u-net.py:885 | `astype('uint8')` keeps every label below 256 and yields only bytes. |
| Mosaic.Ratios | u-net.py:883 | `mask / division_mask` at one pixel has one ratio per class. |
| Mosaic.Initial | u-net.py:863 | Definition: no name, nothing bound, nothing written. |
| Mosaic.Flush | u-net.py:881-914 | A save keeps the state well formed. Its meaning is `MosaicProperties.NameChangeSaveIsArgMax` and `MosaicProperties.EndOfBatchSaveIsBinary`. |
| Mosaic.Enter | u-net.py:879-902 | The name test keeps the state well formed. Its meaning is `MosaicProperties.EnterKeepsImage` and `MosaicProperties.NewImageStartsFresh`. |
| Mosaic.TileStep | u-net.py:879-905 | One tile keeps the state well formed. Its properties are `MosaicProperties.TileStepCount` and `MosaicProperties.TileStepAppends`. |
| Mosaic.Tiles | u-net.py:878-905 | The first `k` outputs keep the state well formed. Their properties are `Mosaic.TilesStop`, `MosaicProperties.TilesCount` and `MosaicProperties.MissingRecordRaises`. |
| Mosaic.BatchStep | u-net.py:865-914 | One batch keeps the state well formed. Its properties are `MosaicProperties.BatchFileCount`, `MosaicProperties.EmptyBatchRaises` and `MosaicProperties.BatchAppends`. |
| Mosaic.Run | u-net.py:865-914 | All batches keep the state well formed. Its properties are `Mosaic.RunStop` and `MosaicProperties.RunAppends`. |
| Mosaic.TilesStop | u-net.py:878-905 | Once the tile loop has raised, further outputs change nothing. |
| Mosaic.RunStop | u-net.py:865 | Once a run has raised, further batches change nothing. |
| Mosaic.ZeroArray | u-net.py:893-898 | The allocated array is fresh, has the requested shape, and holds zeros. |
| Mosaic.Reassembler.constructor | u-net.py:863 | The reassembler starts with no current name, nothing bound and nothing written. |
| Mosaic.Reassembler.Save | u-net.py:907-914 | The coverage array's zeros become 1 in place. The argmax label map, thresholded when asked, is appended to the files written, as `Flush` says. |
| Mosaic.Reassembler.Remap | u-net.py:903-905 | The accumulators hold the external routine's result, in the same arrays. |
| Mosaic.Reassembler.Bind | u-net.py:888-902 | Fresh zeroed accumulators of the given extent are bound, and the output name is the directory joined with the image name. |
| Mosaic.Reassembler.NameTest | u-net.py:879-902 | The new state is `Enter` of the old: a new image name saves the unfinished mosaic (if any) and binds fresh accumulators, or raises on a negative extent. |
| Mosaic.Reassembler.ProcessTile | u-net.py:879-905 | The new state is `TileStep` of the old. |
| Mosaic.Reassembler.Advance | u-net.py:878-905 | Output `i` takes the state from `Tiles(.., i)` to `Tiles(.., i+1)`, raising when there is no tile record. |
| Mosaic.Reassembler.Walk | u-net.py:878-905 | The walk over a batch's outputs ends in `Tiles` over all of the batch's outputs. |
| Mosaic.Reassembler.RunBatch | u-net.py:865-914 | The new state is `BatchStep` of the old: an empty batch raises, otherwise the tiles are walked and the mosaic is saved thresholded. |
| Mosaic.Reassembler.RunAll | u-net.py:863-914 | The state after all batches is `Run` of the initial state. |
| MosaicProperties.EnterKeepsImage | u-net.py:879-880 | The name test changes nothing exactly when the tile belongs to the current image. |
| MosaicProperties.NewImageStartsFresh | u-net.py:880-902 | A new image name saves the unfinished, unthresholded mosaic exactly when there was a current name. It raises exactly on a negative extent, and otherwise binds zeroed accumulators of the VALID-trimmed extent under the joined output name. |
| MosaicProperties.NameChangeSaveIsArgMax | u-net.py:881-887 | Each pixel of a name-change save is the first class with the largest ratio of accumulated value to coverage, with zero coverage counted as 1. |
| MosaicProperties.EndOfBatchSaveIsBinary | u-net.py:907-914 | The end-of-batch save holds only 0 and 1, and holds 1 exactly where the argmax is not class 0. |
| MosaicProperties.ThresholdIdleForTwoClasses | u-net.py:907-914 | With one or two classes the threshold changes nothing. |
| MosaicProperties.MosaicFileKeepsImageName | u-net.py:899-902 | The mosaic of a new image is written to a file whose base name is the image's base name, whatever the output directory. |
| MosaicProperties.DivisionChangeCarriesOver | u-net.py:905-907 | After an end-of-batch save, the next tile of the same image is added to the changed coverage array, whose zeros are now 1. |
| MosaicProperties.EmptyFirstNameRaises | u-net.py:879-905 | A first tile whose path ends in `/` has the empty name. Nothing is bound and the tile raises without writing. |
| MosaicProperties.TileStepAppends | u-net.py:878-905 | A tile only appends to the files written. |
| MosaicProperties.TileStepCount | u-net.py:879-888 | A tile that does not raise writes a file exactly when it changes the name away from a non-empty one, and leaves its own name current. |
| MosaicProperties.TilesCountSucc | u-net.py:878-905 | The file count and the last name carry over from the first `k-1` outputs to the first `k`. |
| MosaicProperties.TilesCountStep | u-net.py:878-905 | Output `k` of a batch that has not raised follows outputs that did not raise, and counts and names as one tile does. |
| MosaicProperties.TilesCount | u-net.py:878-905 | Until a batch raises, it writes one file per change of image name, and the last tile's name is current. |
| MosaicProperties.PrefixSnoc | u-net.py:879-880 | Name changes and the last name over a prefix one tile longer. |
| MosaicProperties.BatchFileCount | u-net.py:865-914 | A batch that does not raise appends one file per name change plus the thresholded file of its last image, under the current output name. |
| MosaicProperties.EmptyBatchRaises | u-net.py:866-867 | An empty batch raises (`np.stack` of nothing) and changes nothing else. |
| MosaicProperties.MissingRecordRaises | u-net.py:878-879 | More outputs than tile records raise. |
| MosaicProperties.TilesAppend | u-net.py:878-905 | The first `k` outputs of a batch only append to the files written. |
| MosaicProperties.BatchAppends | u-net.py:865-914 | A batch only appends to the files written, whether or not it raises. |
| MosaicProperties.RunAppends | u-net.py:865-914 | A run only appends to the files written. |

## Left out

- The network, the TensorFlow graph and sessions, the losses, the optimizers and the metric values are not modelled. Step timings come from `time.perf_counter` and are replaced by step indices. The auxiliary-node class losses (`all_class_losses`) are not modelled.
- File I/O is not modelled. Reading the manifest becomes a list of lines as input. Saving a mosaic or prediction becomes a `Saved` record holding the file name and its labels, not an image file. Log lines become events.
- The data pipelines (TFRecord/HDF5 parsing, the image generator, data augmentation) are not modelled. `Modes.DataSource` only records which pipeline a mode selects.
- `remap_tiles` is not part of this model. It is a parameter of the configuration: a total, deterministic function that keeps the accumulators' shape. A raise inside `remap_tiles` (an offset outside the mosaic, say) therefore cannot happen in the model. Its body decides how tiles overlap.
- The network outputs of the large-image loop are an input of each batch, independent of the batch's images. `sess.run(network)` there is run without a feed, and the model does not link the two.
- The large-image loop iterates over `image_generator`, a name that is never bound anywhere in the script (u-net.py:865). If the loop were ever reached, it would raise `NameError` before its first batch. The model instead gives it a sequence of batches.
- Mosaic.Tile bundles `image_names[i]`, `coords[i]` and `shapes[i]` into one record. The script indexes three separate lists, so a raise when only `coords` or only `shapes` is too short is not modelled. `MosaicProperties.MissingRecordRaises` covers only the case where all three are too short.
- `Mosaic.Reassembler.Walk` passes over the remaining outputs after a raise instead of leaving the loop. `Mosaic.TilesStop` proves that the final state is the same.
- The large-image branch is modelled, but `Modes.LargePredictUnreachable` proves that the script never takes it.
- The plain prediction branch's loop (a bare `except` that stops it) is not modelled beyond its file naming.
- The test branch's timing and metric logging is not modelled.
- `trial`, which keeps the first 50 paths, is not modelled. It is a slice of the list after the manifest reader.
- `Manifest.Dedup` keeps first occurrences in order. Python's `set` fixes no order, so only membership and uniqueness are promised.
- `Manifest.Fields` splits on every comma. CSV quoting is not understood, as in the script.
- Network values and ratios are `real`. Floating-point rounding, `NaN` and the `float32`/`float64` casts are not modelled.
- `Geometry.TruncDiv` is `int(a/b)` on exact quotients. The floating-point rounding of huge operands is not modelled. Its zero-divisor case is the raise that `Geometry.StepCount` returns as `None`.
- `Geometry.OutputSide` gives no side under `SAME` padding. The script leaves that size to the network.
- The configuration needs at least one class (`Mosaic.GoodConfig`), since `np.argmax` over zero channels raises and the script never runs with zero classes.
- The orientation ensemble averages one real channel per cell, with the pixel's channel vector as one cell for the geometric steps. `tf.image.convert_image_dtype` is not modelled.

## Findings

| source | as written | input that shows it | evidently intended | confidence | as-written member | corrected member |
|---|---|---|---|---|---|---|
| u-net.py:409-427 | The backward ensemble step takes outputs 0-3 as the four turns and 4-7 as the mirrored turns, and averages them into one image. That is right only for a batch of one. | A batch of two 1x1 images 0 and 8, with the identity for a network, comes back as one image holding 4. | Each image is realigned and averaged from its own eight outputs, at `b`, `count+b`, ..., `7*count+b`, and a batch comes back with as many images. | not executed | Tumble.AsWrittenMixesBatchOfTwo | Tumble.PerImageRoundTrip |
