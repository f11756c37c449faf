/** What the reassembler promises over whole tiles, batches and runs: when a
    mosaic is saved and under which file name, what its labels are, how
    many files a batch writes, and how the in-place change of the coverage
    count carries over into the next batch. */
module MosaicProperties {
  import opened Geometry
  import opened Naming
  import opened Mosaic
  import Binarize
  import opened PyStr

  /** The tiles of the current image leave the name test without effect,
      and a tile of any other image changes the state. */
  lemma EnterKeepsImage(s: State, cfg: Config, t: Tile)
    requires GoodConfig(cfg) && WellFormed(s, cfg) && !s.raised
    ensures Enter(s, cfg, t) == s <==> Basename(t.path) == s.current
  {
    if Basename(t.path) != s.current {
      assert Enter(s, cfg, t).current != s.current;
    }
  }

  /** A tile of a new image saves the unfinished mosaic, unthresholded,
      exactly when there was a current name; it raises exactly when the
      recorded extent, less the VALID margins, is negative; otherwise it
      starts all-zero accumulators of that extent, written later to the
      output directory under the image's base name. */
  lemma NewImageStartsFresh(s: State, cfg: Config, t: Tile)
    requires GoodConfig(cfg) && WellFormed(s, cfg) && !s.raised
    requires Basename(t.path) != s.current
    ensures var r := Enter(s, cfg, t);
      var h, w := MosaicSide(t.height, cfg.padding), MosaicSide(t.width, cfg.padding);
      && r.current == Basename(t.path)
      && (r.raised <==> h < 0 || w < 0)
      && (s.current == "" ==> r.saved == s.saved)
      && (s.current != "" ==>
            r.saved == s.saved + [Saved(s.outputName, Bytes(Labels(s.mask,
              ReplaceZeros(s.division, s.height, s.width, cfg.classes), s.height, s.width, cfg.classes)))])
      && (!r.raised ==>
            && r.bound && r.height == h && r.width == w
            && (cfg.padding == Valid ==> r.height + 184 == t.height && r.width + 184 == t.width)
            && r.mask == Zeros(h, w, cfg.classes) && r.division == Zeros(h, w, cfg.classes)
            && r.outputName == PathJoin(cfg.outputDir, Basename(t.path)))
  {
  }

  /** Every file saved at a name change holds, per pixel, the first class
      with the largest ratio of accumulated value to coverage, where zero
      coverage counts as 1 (for at most 256 classes, so that the byte
      conversion keeps the label). */
  lemma NameChangeSaveIsArgMax(s: State, cfg: Config, i: nat, j: nat)
    requires GoodConfig(cfg) && cfg.classes <= 256 && WellFormed(s, cfg) && s.bound
    requires i < s.height && j < s.width
    ensures var r := Flush(s, cfg, false);
      var d := ReplaceZeros(s.division, s.height, s.width, cfg.classes);
      var l := r.saved[|r.saved| - 1].labels[i][j];
      && |r.saved| == |s.saved| + 1
      && r.saved[|r.saved| - 1].name == s.outputName
      && l < cfg.classes
      && (forall k :: 0 <= k < cfg.classes ==> s.mask[i][j][k] / d[i][j][k] <= s.mask[i][j][l] / d[i][j][l])
      && (forall k :: 0 <= k < l ==> s.mask[i][j][k] / d[i][j][k] < s.mask[i][j][l] / d[i][j][l])
  {
    var d := ReplaceZeros(s.division, s.height, s.width, cfg.classes);
    var labels := Labels(s.mask, d, s.height, s.width, cfg.classes);
    var l := labels[i][j];
    assert Bytes(labels)[i][j] == l;
    var v := Ratios(s.mask, d, i, j, cfg.classes);
    assert l == Binarize.ArgMax(v);
    assert forall k :: 0 <= k < cfg.classes ==> v[k] == s.mask[i][j][k] / d[i][j][k];
  }

  /** The thresholded save holds only labels 0 and 1: label 1 wherever the
      argmax is not class 0. */
  lemma EndOfBatchSaveIsBinary(s: State, cfg: Config, i: nat, j: nat)
    requires GoodConfig(cfg) && WellFormed(s, cfg) && s.bound
    requires i < s.height && j < s.width
    ensures var r := Flush(s, cfg, true);
      var d := ReplaceZeros(s.division, s.height, s.width, cfg.classes);
      var l := r.saved[|r.saved| - 1].labels[i][j];
      && r.saved[|r.saved| - 1].name == s.outputName
      && (l == 0 || l == 1)
      && (l == 0 <==> Labels(s.mask, d, s.height, s.width, cfg.classes)[i][j] == 0)
  {
  }

  /** With one or two classes the labels are already 0 or 1, so the
      threshold changes nothing and both saves write the same file. */
  lemma ThresholdIdleForTwoClasses(s: State, cfg: Config)
    requires GoodConfig(cfg) && cfg.classes <= 2 && WellFormed(s, cfg) && s.bound
    ensures Flush(s, cfg, true) == Flush(s, cfg, false)
  {
    var d := ReplaceZeros(s.division, s.height, s.width, cfg.classes);
    var labels := Labels(s.mask, d, s.height, s.width, cfg.classes);
    var t := Threshold(labels);
    assert |t| == |labels|;
    forall i | 0 <= i < |labels|
      ensures t[i] == labels[i]
    {
      assert |t[i]| == |labels[i]|;
      forall j | 0 <= j < |labels[i]|
        ensures t[i][j] == labels[i][j]
      {
        assert labels[i][j] < 2;
      }
    }
    assert t == labels;
  }

  /** The mosaic of a new image goes to a file in the output directory
      whose base name is the image's base name, whatever the directory. */
  lemma MosaicFileKeepsImageName(s: State, cfg: Config, t: Tile)
    requires GoodConfig(cfg) && WellFormed(s, cfg) && !s.raised
    requires Basename(t.path) != s.current && !Enter(s, cfg, t).raised
    ensures Basename(Enter(s, cfg, t).outputName) == Basename(t.path)
  {
    NewImageStartsFresh(s, cfg, t);
    PathJoinBasename(cfg.outputDir, Basename(t.path));
  }

  /** The coverage count changed by the end-of-batch save is the one the
      next tile of the same image is added to: its zeros stay 1. */
  lemma DivisionChangeCarriesOver(s: State, cfg: Config, t: Tile, out: Volume)
    requires GoodConfig(cfg) && ShapePreserving(cfg.remap) && WellFormed(s, cfg)
    requires s.bound && !s.raised && Basename(t.path) == s.current
    ensures var f := Flush(s, cfg, true);
      var d := ReplaceZeros(s.division, s.height, s.width, cfg.classes);
      var acc := cfg.remap(s.mask, d, t.row, t.col, out);
      TileStep(f, cfg, t, out) == f.(mask := acc.0, division := acc.1)
  {
    EnterKeepsImage(Flush(s, cfg, true), cfg, t);
  }

  /** A first tile whose path ends in the separator has an empty base name,
      equal to the initial one: nothing is bound and adding it raises. */
  lemma EmptyFirstNameRaises(cfg: Config, t: Tile, out: Volume)
    requires GoodConfig(cfg) && ShapePreserving(cfg.remap)
    requires |t.path| > 0 && t.path[|t.path| - 1] == Sep
    ensures TileStep(Initial(), cfg, t, out).raised
    ensures TileStep(Initial(), cfg, t, out).saved == []
  {
    BasenameIsTail(t.path);
    assert LastIndexOf(t.path, Sep) == |t.path| - 1;
  }

  /** The image names seen after `ts`, starting from `current`. */
  function LastName(current: string, ts: seq<Tile>): string {
    if |ts| == 0 then current else Basename(ts[|ts| - 1].path)
  }

  /** How many tiles of `ts` change the image name away from a non-empty
      one. */
  function Changes(current: string, ts: seq<Tile>): nat {
    if |ts| == 0 then 0
    else
      var prev := LastName(current, ts[..|ts| - 1]);
      Changes(current, ts[..|ts| - 1]) + (if Basename(ts[|ts| - 1].path) != prev && prev != "" then 1 else 0)
  }

  /** Tiles only ever append to the files written. */
  lemma TileStepAppends(s: State, cfg: Config, t: Tile, out: Volume)
    requires GoodConfig(cfg) && ShapePreserving(cfg.remap) && WellFormed(s, cfg)
    ensures s.saved <= TileStep(s, cfg, t, out).saved
  {
  }

  /** Until a batch raises, its first `k` outputs have written one file per
      change of image name and left the last tile's name as current (that
      they only append is `TilesAppend`). */
  lemma {:induction false} TilesCount(s: State, cfg: Config, b: Batch, k: nat)
    requires GoodConfig(cfg) && ShapePreserving(cfg.remap) && WellFormed(s, cfg) && !s.raised
    requires k <= |b.outputs| && k <= |b.tiles| && !Tiles(s, cfg, b, k).raised
    ensures var r := Tiles(s, cfg, b, k);
      && |r.saved| == |s.saved| + Changes(s.current, b.tiles[..k])
      && r.current == LastName(s.current, b.tiles[..k])
  {
    if k == 0 {
      assert b.tiles[..k] == [];
    } else {
      TilesCountStep(s, cfg, b, k);
      TilesCount(s, cfg, b, k - 1);
      TilesCountSucc(s, cfg, b, k);
    }
  }

  /** The count and the last name carry over from the first `k - 1`
      outputs to the first `k`. */
  lemma TilesCountSucc(s: State, cfg: Config, b: Batch, k: nat)
    requires GoodConfig(cfg) && ShapePreserving(cfg.remap) && WellFormed(s, cfg) && !s.raised
    requires 0 < k <= |b.outputs| && k <= |b.tiles| && !Tiles(s, cfg, b, k).raised
    requires var before := Tiles(s, cfg, b, k - 1);
      && |before.saved| == |s.saved| + Changes(s.current, b.tiles[..k - 1])
      && before.current == LastName(s.current, b.tiles[..k - 1])
    ensures var r := Tiles(s, cfg, b, k);
      && |r.saved| == |s.saved| + Changes(s.current, b.tiles[..k])
      && r.current == LastName(s.current, b.tiles[..k])
  {
    TilesCountStep(s, cfg, b, k);
    PrefixSnoc(s.current, b.tiles, k);
  }

  /** Output `k` of a batch that has not raised by then follows outputs
      that did not raise, and counts and names as one tile does. */
  lemma TilesCountStep(s: State, cfg: Config, b: Batch, k: nat)
    requires GoodConfig(cfg) && ShapePreserving(cfg.remap) && WellFormed(s, cfg)
    requires 0 < k <= |b.outputs| && k <= |b.tiles| && !Tiles(s, cfg, b, k).raised
    ensures var before, r, name := Tiles(s, cfg, b, k - 1), Tiles(s, cfg, b, k), Basename(b.tiles[k - 1].path);
      && !before.raised
      && |r.saved| == |before.saved| + (if name != before.current && before.current != "" then 1 else 0)
      && r.current == name
  {
    TileStepCount(Tiles(s, cfg, b, k - 1), cfg, b.tiles[k - 1], b.outputs[k - 1]);
  }

  /** One tile that does not raise writes a file exactly when it changes
      the name away from a non-empty one, and leaves its own name current. */
  lemma TileStepCount(s: State, cfg: Config, t: Tile, out: Volume)
    requires GoodConfig(cfg) && ShapePreserving(cfg.remap) && WellFormed(s, cfg) && !s.raised
    requires !TileStep(s, cfg, t, out).raised
    ensures var r := TileStep(s, cfg, t, out);
      && |r.saved| == |s.saved| + (if Basename(t.path) != s.current && s.current != "" then 1 else 0)
      && r.current == Basename(t.path)
  {
    if Basename(t.path) != s.current {
      NewImageStartsFresh(s, cfg, t);
    } else {
      EnterKeepsImage(s, cfg, t);
    }
  }

  /** The count and the last name over a prefix one tile longer. */
  lemma PrefixSnoc(current: string, ts: seq<Tile>, k: nat)
    requires 0 < k <= |ts|
    ensures var prev := LastName(current, ts[..k - 1]);
      && LastName(current, ts[..k]) == Basename(ts[k - 1].path)
      && Changes(current, ts[..k]) == Changes(current, ts[..k - 1]) +
           (if Basename(ts[k - 1].path) != prev && prev != "" then 1 else 0)
  {
    assert ts[..k][..k - 1] == ts[..k - 1];
  }

  /** A batch that does not raise writes one file per change of image name
      among its tiles, plus the thresholded file of the image its last tile
      belongs to, after all that was written before. */
  lemma BatchFileCount(s: State, cfg: Config, b: Batch)
    requires GoodConfig(cfg) && ShapePreserving(cfg.remap) && WellFormed(s, cfg) && !s.raised
    requires !BatchStep(s, cfg, b).raised && |b.outputs| <= |b.tiles|
    ensures var r := BatchStep(s, cfg, b);
      && s.saved <= r.saved
      && |r.saved| == |s.saved| + Changes(s.current, b.tiles[..|b.outputs|]) + 1
      && r.current == LastName(s.current, b.tiles[..|b.outputs|])
      && r.saved[|r.saved| - 1].name == r.outputName
  {
    TilesCount(s, cfg, b, |b.outputs|);
    BatchAppends(s, cfg, b);
  }

  /** A batch that raises writes nothing more once it has raised, and an
      empty batch raises before any tile. */
  lemma EmptyBatchRaises(s: State, cfg: Config, b: Batch)
    requires GoodConfig(cfg) && ShapePreserving(cfg.remap) && WellFormed(s, cfg) && !s.raised
    requires b.size == 0
    ensures BatchStep(s, cfg, b) == s.(raised := true)
  {
  }

  /** Outputs beyond the tile records raise at the first missing record. */
  lemma MissingRecordRaises(s: State, cfg: Config, b: Batch)
    requires GoodConfig(cfg) && ShapePreserving(cfg.remap) && WellFormed(s, cfg) && !s.raised
    requires b.size > 0 && |b.tiles| < |b.outputs|
    ensures BatchStep(s, cfg, b).raised
  {
    var n := |b.tiles|;
    if !Tiles(s, cfg, b, n).raised {
      assert Tiles(s, cfg, b, n + 1).raised;
      TilesStop(s, cfg, b, n + 1, |b.outputs|);
    } else {
      TilesStop(s, cfg, b, n, |b.outputs|);
    }
  }

  /** Files, once written, stay written: a run only appends. */
  lemma {:induction false} RunAppends(s: State, cfg: Config, batches: seq<Batch>)
    requires GoodConfig(cfg) && ShapePreserving(cfg.remap) && WellFormed(s, cfg)
    ensures s.saved <= Run(s, cfg, batches).saved
    decreases |batches|
  {
    if |batches| > 0 {
      var s1 := BatchStep(s, cfg, batches[0]);
      BatchAppends(s, cfg, batches[0]);
      RunAppends(s1, cfg, batches[1..]);
    }
  }

  /** A batch only appends to the files written, whether or not it raises. */
  lemma BatchAppends(s: State, cfg: Config, b: Batch)
    requires GoodConfig(cfg) && ShapePreserving(cfg.remap) && WellFormed(s, cfg)
    ensures s.saved <= BatchStep(s, cfg, b).saved
  {
    if !s.raised && b.size > 0 {
      TilesAppend(s, cfg, b, |b.outputs|);
    }
  }

  /** The first `k` outputs of a batch only append to the files written. */
  lemma {:induction false} TilesAppend(s: State, cfg: Config, b: Batch, k: nat)
    requires GoodConfig(cfg) && ShapePreserving(cfg.remap) && WellFormed(s, cfg)
    requires k <= |b.outputs|
    ensures s.saved <= Tiles(s, cfg, b, k).saved
  {
    if k > 0 {
      TilesAppend(s, cfg, b, k - 1);
      var before := Tiles(s, cfg, b, k - 1);
      if !before.raised && k - 1 < |b.tiles| {
        TileStepAppends(before, cfg, b.tiles[k - 1], b.outputs[k - 1]);
      }
    }
  }
}
