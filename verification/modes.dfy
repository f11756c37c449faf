/** How the `--mode` string selects what the script does. The script never
    parses the mode into a closed set: each decision point runs its own
    chain of exact (`==`) and substring (`in`) tests, in a fixed order, and
    the first test that succeeds wins. */
module Modes {
  import opened PyStr
  import opened Wrappers
  import Geometry

  /** The branch a dispatch point takes; `Unmatched` means no test succeeded
      (at the stream and input set-up points the names those branches bind
      are then left unbound; at the run point nothing runs). */
  datatype Branch = Train | Test | Predict | LargePredict | Unmatched

  /** The branch chosen when the stream types and the network inputs are set
      up: `mode == 'train'`, then `'test' in mode`, then `'predict' in mode`,
      then `mode == 'large_predict'`. */
  function Dispatch(mode: string): Branch {
    if mode == "train" then Train
    else if Contains(mode, "test") then Test
    else if Contains(mode, "predict") then Predict
    else if mode == "large_predict" then LargePredict
    else Unmatched
  }

  /** Whether the stream yields a training set-up (`is_training`); the
      unmatched case leaves it unbound. */
  function IsTraining(mode: string): (r: Option<bool>)
    ensures r == Some(true) <==> mode == "train"
    ensures r == None <==> Dispatch(mode) == Unmatched
  {
    match Dispatch(mode)
    case Train => Some(true)
    case Unmatched => None
    case _ => Some(false)
  }

  /** The session that actually runs, given whether a checkpoint exists and
      how many images were found: the same test order, each prediction or
      evaluation test also requiring the checkpoint, and nothing at all
      without images. */
  function RunBranch(mode: string, checkpointExists: bool, imageCount: nat): Branch {
    if imageCount == 0 then Unmatched
    else if mode == "train" then Train
    else if Contains(mode, "test") && checkpointExists then Test
    else if Contains(mode, "predict") && checkpointExists then Predict
    else if mode == "large_predict" && checkpointExists then LargePredict
    else Unmatched
  }

  /** Whether the orientation ensemble is switched on. */
  predicate Tumble(mode: string) {
    Contains(mode, "tumble")
  }

  /** Whether the metric and summary operations are built. */
  predicate BuildsMetrics(mode: string) {
    Contains(mode, "train") || Contains(mode, "test")
  }

  /** The mode handed to the image generator: with the ensemble on, every
      `tumble_` is removed from the mode string. */
  function GeneratorMode(mode: string): string {
    if Tumble(mode) then Replace(mode, "tumble_", "") else mode
  }

  /** Where the samples come from: a TFRecord or HDF5 store is used only for
      exactly `train` or `test` with a dataset directory; anything else goes
      through the generator with the generator mode. */
  datatype Source = TFRecordStore | H5Store | ImageGenerator(mode: string)

  function DataSource(extension: string, hasDatasetDir: bool, mode: string): Source {
    var storeMode := mode == "train" || mode == "test";
    if extension == "tfrecord" && hasDatasetDir && storeMode then TFRecordStore
    else if extension == "h5" && hasDatasetDir && storeMode then H5Store
    else ImageGenerator(GeneratorMode(mode))
  }

  /** The large-image branch can never be taken: `'predict' in mode` is
      checked first, and `large_predict` contains `predict`. */
  lemma LargePredictUnreachable(mode: string, checkpointExists: bool, imageCount: nat)
    ensures Dispatch(mode) != LargePredict
    ensures RunBranch(mode, checkpointExists, imageCount) != LargePredict
  {
    if mode == "large_predict" {
      ContainsSuffix("large_", "predict");
      assert mode == "large_" + "predict";
    }
  }

  /** `large_predict` takes the plain prediction branch. */
  lemma LargePredictIsPredict(imageCount: nat)
    requires imageCount > 0
    ensures Dispatch("large_predict") == Predict
    ensures RunBranch("large_predict", true, imageCount) == Predict
  {
    ContainsSuffix("large_", "predict");
    assert "large_predict" == "large_" + "predict";
    LargePredictHasNoTest();
  }

  lemma LargePredictHasNoTest()
    ensures !Contains("large_predict", "test")
  {
    var m := "large_predict";
    assert m[..|m| - 4 + 1] == "large_pred";
    NoRoomForFirstChar(m, "test");
  }

  /** With the ensemble prefix, the generator sees the mode without it, and
      the mode still dispatches on what follows it. */
  lemma TumblePrefixStripped(rest: string)
    requires !Contains(rest, "tumble_")
    ensures Tumble("tumble_" + rest)
    ensures GeneratorMode("tumble_" + rest) == rest
  {
    ContainsSuffix([], "tumble");
    assert ("tumble_" + rest)[..6] == "tumble";
    ReplaceLeading("tumble_", rest, "");
    ReplaceAbsent(rest, "tumble_", "");
  }

  /** `tumble_test` runs the evaluation branch with the ensemble, and its
      generator runs in mode `test`. */
  lemma TumbleTest()
    ensures Dispatch("tumble_test") == Test
    ensures Tumble("tumble_test")
    ensures GeneratorMode("tumble_test") == "test"
  {
    assert "tumble_test" == "tumble_" + "test";
    ContainsSuffix("tumble_", "test");
    TumblePrefixStripped("test");
  }

  /** The run point agrees with the set-up points when a checkpoint exists
      and images were found; without a checkpoint only training runs. */
  lemma RunBranchMatchesDispatch(mode: string, checkpointExists: bool, imageCount: nat)
    requires imageCount > 0
    ensures RunBranch(mode, checkpointExists, imageCount) ==
      if checkpointExists || mode == "train" then Dispatch(mode) else Unmatched
  {
  }

  /** Under valid padding the truth is cropped to the output's side exactly
      in mode `train`: every evaluation mode compares the output with a
      truth map 184 pixels larger per side. */
  lemma TruthAlignedOnlyForTrain(mode: string, side: int)
    requires Dispatch(mode) != Unmatched
    ensures var t := Geometry.TruthSide(side, Geometry.Valid, IsTraining(mode));
      && (t == Geometry.OutputSide(side, Geometry.Valid) <==> mode == "train")
      && (mode != "train" ==> t == Some(side))
  {
    Geometry.TruthAlignedOnlyInTraining(side, IsTraining(mode));
  }

  /** The branches that read the streaming metrics, training and
      evaluation, always find them built. */
  lemma RunBranchBuildsMetrics(mode: string, checkpointExists: bool, imageCount: nat)
    ensures RunBranch(mode, checkpointExists, imageCount) in {Train, Test} ==> BuildsMetrics(mode)
  {
    if mode == "train" {
      ContainsSuffix([], "train");
      assert [] + "train" == "train";
    }
  }

  /** A store is read only for the exact modes `train` and `test` with a
      dataset directory and a `tfrecord` or `h5` extension; every other set-up
      reads the generator with the generator mode. */
  lemma StoreOnlyForExactModes(extension: string, hasDatasetDir: bool, mode: string)
    ensures !DataSource(extension, hasDatasetDir, mode).ImageGenerator? ==>
      hasDatasetDir && (mode == "train" || mode == "test")
    ensures DataSource(extension, hasDatasetDir, mode).ImageGenerator? ==>
      DataSource(extension, hasDatasetDir, mode).mode == GeneratorMode(mode)
  {
  }

  /** A `tumble_` mode never reads a store: its generator runs the mode
      without the prefix. */
  lemma TumbleNeverReadsStore(extension: string, hasDatasetDir: bool, rest: string)
    requires !Contains(rest, "tumble_")
    ensures DataSource(extension, hasDatasetDir, "tumble_" + rest) == ImageGenerator(rest)
  {
    TumblePrefixStripped(rest);
    assert |"tumble_" + rest| >= 7;
  }
}
