/** The large-image reassembler. Network outputs for the tiles of large
    images arrive in batches; each tile names the image it was cut from.
    While the tiles belong to one image they are accumulated into a mosaic
    (`mask`) and a per-cell coverage count (`division_mask`) by an external
    routine, `remap_tiles`, whose body is not part of this model. When the
    image name changes the finished mosaic is saved as the per-pixel argmax
    of `mask / division_mask`, and at the end of every batch the mosaic in
    progress is saved again, this time with its labels thresholded to 0 and
    1. Both saves first replace the zeros of `division_mask` by 1, in place,
    and later tiles of the same image go on accumulating into that changed
    array. */
module Mosaic {
  import opened Geometry
  import opened Naming
  import Binarize

  /** A height x width x classes array of cell values, row-major. */
  type Volume = seq<seq<seq<real>>>

  predicate IsVolume(v: Volume, h: nat, w: nat, nc: nat) {
    |v| == h && forall i :: 0 <= i < h ==>
      |v[i]| == w && forall j :: 0 <= j < w ==> |v[i][j]| == nc
  }

  /** The routine that adds one tile's output to the mosaic and the coverage
      count at a row and column offset; it works on the two arrays in place,
      so it cannot change their shape. */
  type Remap = (Volume, Volume, int, int, Volume) -> (Volume, Volume)

  ghost predicate ShapePreserving(remap: Remap) {
    forall m, d, row, col, tile, h: nat, w: nat, nc: nat ::
      IsVolume(m, h, w, nc) && IsVolume(d, h, w, nc) ==>
        IsVolume(remap(m, d, row, col, tile).0, h, w, nc) &&
        IsVolume(remap(m, d, row, col, tile).1, h, w, nc)
  }

  /** `np.zeros((h, w, nc))`. */
  function Zeros(h: nat, w: nat, nc: nat): (v: Volume)
    ensures IsVolume(v, h, w, nc)
    ensures forall i, j, k :: 0 <= i < h && 0 <= j < w && 0 <= k < nc ==> v[i][j][k] == 0.0
  {
    seq(h, i => seq(w, j => seq(nc, k => 0.0)))
  }

  /** `d[d == 0] = 1`: every zero entry becomes 1, so afterwards no entry is
      zero, and every other entry is left as it was. */
  function ReplaceZeros(d: Volume, ghost h: nat, ghost w: nat, ghost nc: nat): (r: Volume)
    requires IsVolume(d, h, w, nc)
    ensures IsVolume(r, h, w, nc)
    ensures forall i, j, k :: 0 <= i < h && 0 <= j < w && 0 <= k < nc ==>
      r[i][j][k] != 0.0 && (d[i][j][k] != 0.0 ==> r[i][j][k] == d[i][j][k])
  {
    seq(|d|, i requires 0 <= i < |d| => seq(|d[i]|, j requires 0 <= j < |d[i]| =>
      seq(|d[i][j]|, k requires 0 <= k < |d[i][j]| => if d[i][j][k] == 0.0 then 1.0 else d[i][j][k])))
  }

  /** `np.argmax(m / d, axis=2)`: per pixel, the first class with the largest
      ratio of accumulated value to coverage. */
  function Labels(m: Volume, d: Volume, h: nat, w: nat, nc: nat): (r: seq<seq<nat>>)
    requires nc > 0 && IsVolume(m, h, w, nc) && IsVolume(d, h, w, nc)
    requires forall i, j, k :: 0 <= i < h && 0 <= j < w && 0 <= k < nc ==> d[i][j][k] != 0.0
    ensures |r| == h && forall i :: 0 <= i < h ==> |r[i]| == w
    ensures forall i, j :: 0 <= i < h && 0 <= j < w ==> r[i][j] < nc
  {
    seq(h, i requires 0 <= i < h => seq(w, j requires 0 <= j < w =>
      Binarize.ArgMax(Ratios(m, d, i, j, nc))))
  }

  /** `mask / division_mask` at one pixel, channel by channel. */
  function Ratios(m: Volume, d: Volume, i: nat, j: nat, nc: nat): (r: seq<real>)
    requires i < |m| && i < |d| && j < |m[i]| && j < |d[i]| && |m[i][j]| == nc && |d[i][j]| == nc
    requires forall k :: 0 <= k < nc ==> d[i][j][k] != 0.0
    ensures |r| == nc
  {
    seq(nc, k requires 0 <= k < nc => m[i][j][k] / d[i][j][k])
  }

  /** `image[image >= 0.5] = 1` followed by `image[image < 0.5] = 0` on a
      label map. */
  function Threshold(l: seq<seq<nat>>): (r: seq<seq<nat>>)
    ensures |r| == |l| && forall i :: 0 <= i < |l| ==> |r[i]| == |l[i]|
    ensures forall i, j :: 0 <= i < |l| && 0 <= j < |l[i]| ==>
      r[i][j] == if l[i][j] == 0 then 0 else 1
  {
    var high := seq(|l|, i requires 0 <= i < |l| =>
      seq(|l[i]|, j requires 0 <= j < |l[i]| => if l[i][j] as real >= 0.5 then 1 else l[i][j]));
    seq(|high|, i requires 0 <= i < |high| =>
      seq(|high[i]|, j requires 0 <= j < |high[i]| => if (high[i][j] as real) < 0.5 then 0 else high[i][j]))
  }

  /** `astype('uint8')`: labels are stored modulo 256. */
  function Bytes(l: seq<seq<nat>>): (r: seq<seq<nat>>)
    ensures |r| == |l| && forall i :: 0 <= i < |l| ==> |r[i]| == |l[i]|
    ensures forall i, j :: 0 <= i < |l| && 0 <= j < |l[i]| ==> r[i][j] < 256
    ensures forall i, j :: 0 <= i < |l| && 0 <= j < |l[i]| && l[i][j] < 256 ==> r[i][j] == l[i][j]
  {
    seq(|l|, i requires 0 <= i < |l| => seq(|l[i]|, j requires 0 <= j < |l[i]| => l[i][j] % 256))
  }

  /** A label map written to a file (as three equal channels). */
  datatype Saved = Saved(name: string, labels: seq<seq<nat>>)

  /** One tile record: the path of the image it was cut from, its offset in
      that image and the image's recorded height and width. */
  datatype Tile = Tile(path: string, row: int, col: int, height: int, width: int)

  /** One batch from the generator: the number of input images it stacks,
      its tile records, and the network outputs run for it; the loop walks
      the outputs and looks up the record of the same index. */
  datatype Batch = Batch(size: nat, tiles: seq<Tile>, outputs: seq<Volume>)

  /** The run's fixed settings. */
  datatype Config = Config(padding: Padding, classes: nat, outputDir: string, remap: Remap)

  predicate GoodConfig(cfg: Config) {
    cfg.classes > 0
  }

  /** The reassembler's variables: the current image name, whether the
      accumulators have been bound yet, their extent, their contents, the
      file the current mosaic goes to, the files written so far, and
      whether the loop has raised. */
  datatype State = State(
    current: string,
    bound: bool,
    height: nat,
    width: nat,
    mask: Volume,
    division: Volume,
    outputName: string,
    saved: seq<Saved>,
    raised: bool)

  /** Before the first batch: no name, nothing bound, nothing written. */
  function Initial(): State {
    State("", false, 0, 0, [], [], "", [], false)
  }

  /** Until the loop raises, a named image has its accumulators bound; bound
      accumulators have the mosaic's extent and one channel per class. */
  predicate WellFormed(s: State, cfg: Config) {
    (s.current != "" && !s.raised ==> s.bound) &&
    (s.bound ==> IsVolume(s.mask, s.height, s.width, cfg.classes) &&
                 IsVolume(s.division, s.height, s.width, cfg.classes))
  }

  /** The save when a new image starts (no threshold) or at the end of a
      batch (thresholded): zeros of the coverage count become 1, in place,
      and the argmax label map goes to the current output file. */
  function Flush(s: State, cfg: Config, binary: bool): (r: State)
    requires GoodConfig(cfg) && WellFormed(s, cfg) && s.bound
    ensures WellFormed(r, cfg)
  {
    var d := ReplaceZeros(s.division, s.height, s.width, cfg.classes);
    var labels := Labels(s.mask, d, s.height, s.width, cfg.classes);
    var image := if binary then Threshold(labels) else labels;
    s.(division := d, saved := s.saved + [Saved(s.outputName, Bytes(image))])
  }

  /** The name test of one tile: a tile of another image saves the current
      mosaic if there is a current name, takes the new name and binds fresh
      zeroed accumulators of the mosaic's extent (raising on a negative
      extent); a tile of the current image changes nothing. */
  function Enter(s: State, cfg: Config, t: Tile): (r: State)
    requires GoodConfig(cfg) && WellFormed(s, cfg) && !s.raised
    ensures WellFormed(r, cfg)
  {
    var name := Basename(t.path);
    if name == s.current then s
    else
      var s1 := if s.current != "" then Flush(s, cfg, false) else s;
      var h, w := MosaicSide(t.height, cfg.padding), MosaicSide(t.width, cfg.padding);
      if h < 0 || w < 0 then s1.(current := name, raised := true)
      else s1.(current := name, bound := true, height := h, width := w,
               mask := Zeros(h, w, cfg.classes), division := Zeros(h, w, cfg.classes),
               outputName := PathJoin(cfg.outputDir, name))
  }

  /** One tile: the name test, then the tile's output is added into the
      accumulators. Adding into accumulators never bound raises. */
  function TileStep(s: State, cfg: Config, t: Tile, out: Volume): (r: State)
    requires GoodConfig(cfg) && WellFormed(s, cfg) && ShapePreserving(cfg.remap)
    ensures WellFormed(r, cfg)
  {
    if s.raised then s
    else
      var s1 := Enter(s, cfg, t);
      if s1.raised then s1
      else if !s1.bound then s1.(raised := true)
      else
        var acc := cfg.remap(s1.mask, s1.division, t.row, t.col, out);
        s1.(mask := acc.0, division := acc.1)
  }

  /** The first `k` outputs of a batch; an output without a tile record
      raises. */
  function Tiles(s: State, cfg: Config, b: Batch, k: nat): (r: State)
    requires GoodConfig(cfg) && WellFormed(s, cfg) && ShapePreserving(cfg.remap)
    requires k <= |b.outputs|
    ensures WellFormed(r, cfg)
  {
    if k == 0 then s
    else
      var before := Tiles(s, cfg, b, k - 1);
      if before.raised then before
      else if k - 1 >= |b.tiles| then before.(raised := true)
      else TileStep(before, cfg, b.tiles[k - 1], b.outputs[k - 1])
  }

  /** One batch: stacking an empty batch raises; otherwise its outputs are
      walked and the mosaic in progress is saved thresholded, which raises
      if no accumulator was ever bound. */
  function BatchStep(s: State, cfg: Config, b: Batch): (r: State)
    requires GoodConfig(cfg) && WellFormed(s, cfg) && ShapePreserving(cfg.remap)
    ensures WellFormed(r, cfg)
  {
    if s.raised then s
    else if b.size == 0 then s.(raised := true)
    else
      var s1 := Tiles(s, cfg, b, |b.outputs|);
      if s1.raised then s1
      else if !s1.bound then s1.(raised := true)
      else Flush(s1, cfg, true)
  }

  /** All batches, in order. */
  function Run(s: State, cfg: Config, batches: seq<Batch>): (r: State)
    requires GoodConfig(cfg) && WellFormed(s, cfg) && ShapePreserving(cfg.remap)
    ensures WellFormed(r, cfg)
    decreases |batches|
  {
    if |batches| == 0 then s
    else Run(BatchStep(s, cfg, batches[0]), cfg, batches[1..])
  }

  /** Once the loop has raised, further outputs change nothing. */
  lemma {:induction false} TilesStop(s: State, cfg: Config, b: Batch, k: nat, m: nat)
    requires GoodConfig(cfg) && WellFormed(s, cfg) && ShapePreserving(cfg.remap)
    requires k <= m <= |b.outputs| && Tiles(s, cfg, b, k).raised
    ensures Tiles(s, cfg, b, m) == Tiles(s, cfg, b, k)
    decreases m
  {
    if m > k {
      TilesStop(s, cfg, b, k, m - 1);
      var before := Tiles(s, cfg, b, m - 1);
      assert before.raised;
      assert Tiles(s, cfg, b, m) == before;
    }
  }

  /** A raised run stays as it is. */
  lemma {:induction false} RunStop(s: State, cfg: Config, batches: seq<Batch>)
    requires GoodConfig(cfg) && WellFormed(s, cfg) && ShapePreserving(cfg.remap) && s.raised
    ensures Run(s, cfg, batches) == s
    decreases |batches|
  {
    if |batches| > 0 {
      RunStop(s, cfg, batches[1..]);
    }
  }

  /** Two volumes of one shape that agree cell by cell are equal. */
  lemma VolumeExt(u: Volume, v: Volume, h: nat, w: nat, nc: nat)
    requires IsVolume(u, h, w, nc) && IsVolume(v, h, w, nc)
    requires forall i, j, k :: 0 <= i < h && 0 <= j < w && 0 <= k < nc ==> u[i][j][k] == v[i][j][k]
    ensures u == v
  {
    forall i | 0 <= i < h
      ensures u[i] == v[i]
    {
      forall j | 0 <= j < w
        ensures u[i][j] == v[i][j]
      {
        assert forall k :: 0 <= k < nc ==> u[i][j][k] == v[i][j][k];
      }
    }
  }

  /** The cell values of an array, as a volume. */
  function Contents(a: array3<real>): (v: Volume)
    reads a
    ensures IsVolume(v, a.Length0, a.Length1, a.Length2)
  {
    seq(a.Length0, i requires 0 <= i < a.Length0 reads a =>
      seq(a.Length1, j requires 0 <= j < a.Length1 reads a =>
        seq(a.Length2, k requires 0 <= k < a.Length2 reads a => a[i, j, k])))
  }

  lemma ContentsCells(a: array3<real>)
    ensures forall i, j, k :: 0 <= i < a.Length0 && 0 <= j < a.Length1 && 0 <= k < a.Length2 ==>
      Contents(a)[i][j][k] == a[i, j, k]
  {
  }

  /** An array holds a volume of its shape when they agree cell by cell. */
  lemma ContentsMatch(a: array3<real>, v: Volume)
    requires IsVolume(v, a.Length0, a.Length1, a.Length2)
    requires forall i, j, k :: 0 <= i < a.Length0 && 0 <= j < a.Length1 && 0 <= k < a.Length2 ==>
      a[i, j, k] == v[i][j][k]
    ensures Contents(a) == v
  {
    ContentsCells(a);
    VolumeExt(Contents(a), v, a.Length0, a.Length1, a.Length2);
  }

  /** `np.zeros((h, w, nc))`, allocated. */
  method ZeroArray(h: nat, w: nat, nc: nat) returns (a: array3<real>)
    ensures fresh(a) && a.Length0 == h && a.Length1 == w && a.Length2 == nc
    ensures Contents(a) == Zeros(h, w, nc)
  {
    a := new real[h, w, nc]((i, j, k) => 0.0);
    ContentsMatch(a, Zeros(h, w, nc));
  }

  /** The reassembler as the script runs it: the accumulators are arrays
      updated in place, and the other variables are fields the loop
      reassigns. Each method is the corresponding step of the functional
      model above. */
  class Reassembler {
    var current: string
    var bound: bool
    var mask: array3<real>
    var division: array3<real>
    var outputName: string
    var saved: seq<Saved>
    var raised: bool
    const cfg: Config

    /** The variables as a value of the functional model. */
    function Snapshot(): State
      reads this, mask, division
    {
      State(current, bound, mask.Length0, mask.Length1, Contents(mask), Contents(division),
            outputName, saved, raised)
    }

    /** The two accumulators are distinct arrays of one shape with a channel
        per class. */
    ghost predicate Valid()
      reads this, mask, division
    {
      GoodConfig(cfg) && ShapePreserving(cfg.remap) &&
      mask != division &&
      mask.Length2 == cfg.classes &&
      division.Length0 == mask.Length0 && division.Length1 == mask.Length1 &&
      division.Length2 == cfg.classes &&
      (current != "" && !raised ==> bound)
    }

    /** `curr_image_name = ''` before the first batch; the accumulators are
        not bound yet. */
    constructor (cfg: Config)
      requires GoodConfig(cfg) && ShapePreserving(cfg.remap)
      ensures Valid() && Snapshot() == Initial() && this.cfg == cfg
      ensures fresh(mask) && fresh(division)
    {
      this.cfg := cfg;
      current, bound, outputName, saved, raised := "", false, "", [], false;
      mask := new real[0, 0, cfg.classes];
      division := new real[0, 0, cfg.classes];
    }

    /** A save: `division_mask[division_mask == 0] = 1` in place, then the
        argmax label map, thresholded at the end of a batch, is written to
        the current output file. */
    method Save(binary: bool)
      requires Valid() && bound && !raised
      modifies this, division
      ensures Valid() && mask == old(mask) && division == old(division)
      ensures Snapshot() == Flush(old(Snapshot()), cfg, binary)
    {
      ghost var before := Contents(division);
      ContentsCells(division);
      forall i, j, k | 0 <= i < division.Length0 && 0 <= j < division.Length1 && 0 <= k < division.Length2 {
        division[i, j, k] := if division[i, j, k] == 0.0 then 1.0 else division[i, j, k];
      }
      ContentsMatch(division, ReplaceZeros(before, mask.Length0, mask.Length1, cfg.classes));
      var labels := Labels(Contents(mask), Contents(division), mask.Length0, mask.Length1, cfg.classes);
      var image := labels;
      if binary {
        image := Threshold(labels);
      }
      saved := saved + [Saved(outputName, Bytes(image))];
    }

    /** `remap_tiles(mask, division_mask, h_1, w_1, tile)`: the external
        routine's result written back into the two arrays. */
    method Remap(row: int, col: int, out: Volume)
      requires Valid() && bound
      modifies mask, division
      ensures Valid()
      ensures var acc := cfg.remap(old(Contents(mask)), old(Contents(division)), row, col, out);
        Snapshot() == old(Snapshot()).(mask := acc.0, division := acc.1)
    {
      var h, w, nc := mask.Length0, mask.Length1, mask.Length2;
      var acc := cfg.remap(Contents(mask), Contents(division), row, col, out);
      assert IsVolume(acc.0, h, w, nc) && IsVolume(acc.1, h, w, nc);
      forall i, j, k | 0 <= i < h && 0 <= j < w && 0 <= k < nc {
        mask[i, j, k] := acc.0[i][j][k];
      }
      forall i, j, k | 0 <= i < h && 0 <= j < w && 0 <= k < nc {
        division[i, j, k] := acc.1[i][j][k];
      }
      ContentsMatch(mask, acc.0);
      ContentsMatch(division, acc.1);
    }

    /** Fresh zeroed accumulators of the mosaic's extent, and the output
        file of the new image. */
    method Bind(name: string, h: nat, w: nat)
      requires Valid() && !raised
      modifies this
      ensures Valid() && fresh(mask) && fresh(division)
      ensures Snapshot() == old(Snapshot()).(current := name, bound := true, height := h, width := w,
        mask := Zeros(h, w, cfg.classes), division := Zeros(h, w, cfg.classes),
        outputName := PathJoin(cfg.outputDir, name))
    {
      current := name;
      mask := ZeroArray(h, w, cfg.classes);
      division := ZeroArray(h, w, cfg.classes);
      bound := true;
      outputName := PathJoin(cfg.outputDir, current);
    }

    /** The name test: a tile of another image saves the current mosaic when
        there is a current name and starts the new one. */
    method NameTest(t: Tile)
      requires Valid() && !raised
      modifies this, division
      ensures Valid()
      ensures mask == old(mask) || fresh(mask)
      ensures division == old(division) || fresh(division)
      ensures Snapshot() == Enter(old(Snapshot()), cfg, t)
    {
      var name := Basename(t.path);
      if name != current {
        if current != "" {
          Save(false);
        }
        var h, w := MosaicSide(t.height, cfg.padding), MosaicSide(t.width, cfg.padding);
        if h < 0 || w < 0 {
          current, raised := name, true;
          return;
        }
        Bind(name, h, w);
      }
    }

    /** One pass of the inner loop: the name test, then the tile is added
        into the accumulators. */
    method ProcessTile(t: Tile, out: Volume)
      requires Valid() && !raised
      modifies this, mask, division
      ensures Valid()
      ensures mask == old(mask) || fresh(mask)
      ensures division == old(division) || fresh(division)
      ensures Snapshot() == TileStep(old(Snapshot()), cfg, t, out)
    {
      NameTest(t);
      if raised {
        return;
      }
      if !bound {
        raised := true;
        return;
      }
      Remap(t.row, t.col, out);
    }

    /** Output `i` of a batch: its tile record is looked up by index, which
        raises past the end of the records. Once the walk has raised, the
        outputs left are passed over; the script leaves the loop instead,
        which by `TilesStop` ends in the same state. */
    method Advance(ghost start: State, b: Batch, i: nat)
      requires Valid() && WellFormed(start, cfg)
      requires i < |b.outputs| && Snapshot() == Tiles(start, cfg, b, i)
      modifies this, mask, division
      ensures Valid()
      ensures mask == old(mask) || fresh(mask)
      ensures division == old(division) || fresh(division)
      ensures Snapshot() == Tiles(start, cfg, b, i + 1)
    {
      if raised {
      } else if i < |b.tiles| {
        ProcessTile(b.tiles[i], b.outputs[i]);
      } else {
        raised := true;
      }
    }

    /** The walk over a batch's outputs, each looked up in the tile records
        by its index. */
    method Walk(b: Batch)
      requires Valid() && !raised
      modifies this, mask, division
      ensures Valid()
      ensures mask == old(mask) || fresh(mask)
      ensures division == old(division) || fresh(division)
      ensures Snapshot() == Tiles(old(Snapshot()), cfg, b, |b.outputs|)
    {
      ghost var start := Snapshot();
      var i := 0;
      while i < |b.outputs|
        invariant 0 <= i <= |b.outputs|
        invariant Valid()
        invariant mask == old(mask) || fresh(mask)
        invariant division == old(division) || fresh(division)
        invariant Snapshot() == Tiles(start, cfg, b, i)
      {
        Advance(start, b, i);
        i := i + 1;
      }
    }

    /** One batch: the stack of its inputs, the walk over its outputs, and
        the thresholded save of the mosaic in progress. */
    method RunBatch(b: Batch)
      requires Valid()
      modifies this, mask, division
      ensures Valid()
      ensures mask == old(mask) || fresh(mask)
      ensures division == old(division) || fresh(division)
      ensures Snapshot() == BatchStep(old(Snapshot()), cfg, b)
    {
      if raised {
      } else if b.size == 0 {
        raised := true;
      } else {
        Walk(b);
        if raised {
        } else if !bound {
          raised := true;
        } else {
          Save(true);
        }
      }
    }

    /** The loop over the generator's batches, stopping at the first raise. */
    method RunAll(batches: seq<Batch>)
      requires Valid()
      modifies this, mask, division
      ensures Valid()
      ensures Snapshot() == Run(old(Snapshot()), cfg, batches)
    {
      var k := 0;
      while k < |batches|
        invariant 0 <= k <= |batches|
        invariant Valid()
        invariant mask == old(mask) || fresh(mask)
        invariant division == old(division) || fresh(division)
        invariant Run(Snapshot(), cfg, batches[k..]) == Run(old(Snapshot()), cfg, batches)
      {
        if raised {
          RunStop(Snapshot(), cfg, batches[k..]);
          return;
        }
        assert batches[k..][1..] == batches[k + 1..];
        RunBatch(batches[k]);
        k := k + 1;
      }
    }
  }
}
