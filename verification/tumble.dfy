/** The orientation ensemble ("tumble" modes). The input batch is expanded
    into its eight dihedral variants (the four counter-clockwise quarter
    turns of the image and of its left-right mirror image), stacked along
    the batch axis; the network output of each variant is turned back into
    the original orientation and the eight aligned outputs are averaged.

    Grids are row-major `seq<seq<T>>`; a pixel's channel vector is one cell
    for the geometric steps, and the averaging is done on one real channel
    (every channel of a prediction is averaged the same way). */
module Tumble {
  import opened Geometry

  function Width<T>(g: Grid<T>): nat {
    if |g| == 0 then 0 else |g[0]|
  }

  /** Every row has the width of the first. */
  predicate Rect<T>(g: Grid<T>) {
    IsGrid(g, |g|, Width(g))
  }

  /** A rectangle with at least one row and one column. */
  predicate Proper<T>(g: Grid<T>) {
    Rect(g) && Width(g) > 0
  }

  /** `tf.image.flip_left_right`: the column order reversed. */
  function Flip<T>(g: Grid<T>): (r: Grid<T>)
    requires Rect(g)
    ensures IsGrid(r, |g|, Width(g))
  {
    var h, w := |g|, Width(g);
    seq(h, i requires 0 <= i < h => seq(w, j requires 0 <= j < w => g[i][w - 1 - j]))
  }

  /** `tf.image.rot90(g, k)`: `k` counter-clockwise quarter turns, `k` taken
      modulo 4 (so a negative `k` turns clockwise). An odd number of turns
      swaps height and width. */
  function Rot<T>(g: Grid<T>, k: int): (r: Grid<T>)
    requires Rect(g)
    ensures k % 4 == 0 || k % 4 == 2 ==> IsGrid(r, |g|, Width(g))
    ensures k % 4 == 1 || k % 4 == 3 ==> IsGrid(r, Width(g), |g|)
  {
    var h, w := |g|, Width(g);
    if k % 4 == 0 then g
    else if k % 4 == 1 then
      seq(w, i requires 0 <= i < w => seq(h, j requires 0 <= j < h => g[j][w - 1 - i]))
    else if k % 4 == 2 then
      seq(h, i requires 0 <= i < h => seq(w, j requires 0 <= j < w => g[h - 1 - i][w - 1 - j]))
    else
      seq(w, i requires 0 <= i < w => seq(h, j requires 0 <= j < h => g[h - 1 - j][i]))
  }

  /** Two grids of one shape that agree cell by cell are equal. */
  lemma GridExt<T>(a: Grid<T>, b: Grid<T>, h: nat, w: nat)
    requires IsGrid(a, h, w) && IsGrid(b, h, w)
    requires forall i, j :: 0 <= i < h && 0 <= j < w ==> a[i][j] == b[i][j]
    ensures a == b
  {
    forall i | 0 <= i < h
      ensures a[i] == b[i]
    {
      assert forall j :: 0 <= j < w ==> a[i][j] == b[i][j];
    }
  }

  /** Mirroring twice restores the grid. */
  lemma FlipFlip<T>(g: Grid<T>)
    requires Rect(g)
    ensures Flip(Flip(g)) == g
  {
    if |g| > 0 {
      GridExt(Flip(Flip(g)), g, |g|, Width(g));
    }
  }

  /** Turning by `k` and then by `-k` restores a proper grid: each inverse
      rotation of the realignment cancels its forward rotation. */
  lemma RotInverse<T>(g: Grid<T>, k: int)
    requires Proper(g)
    ensures Rot(Rot(g, k), -k) == g
  {
    var h, w := |g|, Width(g);
    var r := Rot(g, k);
    assert k % 4 == 1 <==> (-k) % 4 == 3;
    assert k % 4 == 3 <==> (-k) % 4 == 1;
    assert k % 4 == 2 <==> (-k) % 4 == 2;
    if k % 4 == 1 || k % 4 == 3 {
      assert Width(r) == h;
    } else if k % 4 == 2 {
      assert Width(r) == w;
    }
    GridExt(Rot(r, -k), g, h, w);
  }

  /** Mirroring, turning by `k` and mirroring again is turning by `-k`. */
  lemma FlipConjugatesRot<T>(g: Grid<T>, k: int)
    requires Proper(g)
    ensures Flip(Rot(Flip(g), k)) == Rot(g, -k)
  {
    var h, w := |g|, Width(g);
    var f := Flip(g);
    assert Width(f) == w;
    assert k % 4 == 1 <==> (-k) % 4 == 3;
    assert k % 4 == 3 <==> (-k) % 4 == 1;
    assert k % 4 == 2 <==> (-k) % 4 == 2;
    var r := Rot(f, k);
    if k % 4 == 1 || k % 4 == 3 {
      assert Width(r) == h;
      GridExt(Flip(r), Rot(g, -k), w, h);
    } else {
      assert Width(r) == w;
      GridExt(Flip(r), Rot(g, -k), h, w);
    }
  }

  /** All grids of a batch are `n` by `n`. */
  predicate AllSquare<T>(gs: seq<Grid<T>>, n: nat) {
    forall b :: 0 <= b < |gs| ==> IsGrid(gs[b], n, n)
  }

  function RotAll<T>(gs: seq<Grid<T>>, k: int, ghost n: nat): (r: seq<Grid<T>>)
    requires AllSquare(gs, n)
    ensures |r| == |gs| && AllSquare(r, n)
  {
    seq(|gs|, b requires 0 <= b < |gs| => Rot(gs[b], k))
  }

  function FlipAll<T>(gs: seq<Grid<T>>, ghost n: nat): (r: seq<Grid<T>>)
    requires AllSquare(gs, n)
    ensures |r| == |gs| && AllSquare(r, n)
  {
    seq(|gs|, b requires 0 <= b < |gs| => Flip(gs[b]))
  }

  /** The forward step: the batch, its three quarter turns, its mirror image
      and the mirror image's three quarter turns, concatenated along the
      batch axis (which needs square images). */
  function Expand<T>(batch: seq<Grid<T>>, ghost n: nat): (r: seq<Grid<T>>)
    requires AllSquare(batch, n)
    ensures |r| == 8 * |batch| && AllSquare(r, n)
  {
    var flipped := FlipAll(batch, n);
    batch + RotAll(batch, 1, n) + RotAll(batch, 2, n) + RotAll(batch, 3, n)
      + flipped + RotAll(flipped, 1, n) + RotAll(flipped, 2, n) + RotAll(flipped, 3, n)
  }

  /** Sum of cell (i, j) over a list of grids. */
  function CellSum(gs: seq<Grid<real>>, i: nat, j: nat, ghost n: nat): real
    requires AllSquare(gs, n) && i < n && j < n
  {
    if |gs| == 0 then 0.0 else CellSum(gs[..|gs| - 1], i, j, n) + gs[|gs| - 1][i][j]
  }

  /** `tf.reduce_mean(gs, axis=0)`: the cell-wise mean of a non-empty list. */
  function Mean(gs: seq<Grid<real>>, n: nat): (r: Grid<real>)
    requires |gs| > 0 && AllSquare(gs, n)
    ensures IsGrid(r, n, n)
  {
    seq(n, i requires 0 <= i < n => seq(n, j requires 0 <= j < n => CellSum(gs, i, j, n) / (|gs| as real)))
  }

  /** The rotations of the backward step, applied to the four unmirrored
      outputs and the four outputs already mirrored back: the turns are
      undone by turning back by -1, -2 and -3 quarter turns, and the
      mirrored turns by +1, -2 and -1 quarter turns. */
  function Unrotate(o: seq<Grid<real>>, n: nat): (r: seq<Grid<real>>)
    requires |o| == 8 && AllSquare(o, n)
    ensures |r| == 8 && AllSquare(r, n)
  {
    [o[0], Rot(o[1], -1), Rot(o[2], -2), Rot(o[3], -3),
     o[4], Rot(o[5], 1), Rot(o[6], -2), Rot(o[7], -1)]
  }

  /** The backward step for the eight outputs `v` of one image: the last
      four are mirrored back, every output is turned back, and the eight are
      averaged cell by cell. */
  function Realigned(v: seq<Grid<real>>, n: nat): (r: Grid<real>)
    requires |v| == 8 && AllSquare(v, n)
    ensures IsGrid(r, n, n)
  {
    Mean(Unrotate(v[..4] + FlipAll(v[4..], n), n), n)
  }

  /** The backward step as written: the first four outputs are taken as the
      unmirrored variants and the mirror of outputs 4, 5, 6, 7 as the
      mirrored ones, then averaged into a batch of one. The indices are
      those of a batch of one image. */
  function CombineAsWritten(outs: seq<Grid<real>>, n: nat): (r: seq<Grid<real>>)
    requires |outs| >= 8 && AllSquare(outs, n)
    ensures |r| == 1 && AllSquare(r, n)
  {
    var network := outs[..4];
    var flippedPrediction := FlipAll(outs[4..], n);
    [Mean(Unrotate(network + flippedPrediction[..4], n), n)]
  }

  /** The eight outputs that belong to image `b` of a batch of `count`: they
      sit at `b`, `count + b`, ..., `7 * count + b`. */
  function VariantsOf(outs: seq<Grid<real>>, count: nat, b: nat, ghost n: nat): (v: seq<Grid<real>>)
    requires |outs| == 8 * count && b < count && AllSquare(outs, n)
    ensures |v| == 8 && AllSquare(v, n)
  {
    [outs[b], outs[count + b], outs[2 * count + b], outs[3 * count + b],
     outs[4 * count + b], outs[5 * count + b], outs[6 * count + b], outs[7 * count + b]]
  }

  /** Corrected backward step for a batch of `count` images: each image is
      realigned and averaged from its own eight outputs. */
  function CombinePerImage(outs: seq<Grid<real>>, count: nat, n: nat): (r: seq<Grid<real>>)
    requires |outs| == 8 * count && AllSquare(outs, n)
    ensures |r| == count && AllSquare(r, n)
  {
    seq(count, b requires 0 <= b < count => Realigned(VariantsOf(outs, count, b, n), n))
  }

  /** Undoing the transforms of the eight variants of one proper square
      grid, mirrored ones first mirrored back, gives eight copies of it. */
  lemma UnrotateVariants(x: Grid<real>, n: nat)
    requires IsGrid(x, n, n) && n > 0
    ensures var f := Flip(x);
      Unrotate([x, Rot(x, 1), Rot(x, 2), Rot(x, 3),
                Flip(f), Flip(Rot(f, 1)), Flip(Rot(f, 2)), Flip(Rot(f, 3))], n)
      == [x, x, x, x, x, x, x, x]
  {
    assert Width(x) == n;
    TurnsUndone(x);
    MirroredTurnsUndone(x);
    FlipFlip(x);
  }

  /** The backward turns undo the forward quarter turns. */
  lemma TurnsUndone<T>(x: Grid<T>)
    requires Proper(x)
    ensures Rot(Rot(x, 1), -1) == x && Rot(Rot(x, 2), -2) == x && Rot(Rot(x, 3), -3) == x
  {
    RotInverse(x, 1);
    RotInverse(x, 2);
    RotInverse(x, 3);
  }

  /** Once mirrored back, the backward turns undo the mirrored quarter
      turns: +1 after one turn, -2 after two, -1 after three. */
  lemma MirroredTurnsUndone<T>(x: Grid<T>)
    requires Proper(x)
    ensures var f := Flip(x);
      && Rot(Flip(Rot(f, 1)), 1) == x
      && Rot(Flip(Rot(f, 2)), -2) == x
      && Rot(Flip(Rot(f, 3)), -1) == x
  {
    MirroredTurnUndone1(x);
    MirroredTurnUndone2(x);
    MirroredTurnUndone3(x);
  }

  lemma MirroredTurnUndone1<T>(x: Grid<T>)
    requires Proper(x)
    ensures Rot(Flip(Rot(Flip(x), 1)), 1) == x
  {
    FlipConjugatesRot(x, 1);
    RotInverse(x, -1);
  }

  lemma MirroredTurnUndone2<T>(x: Grid<T>)
    requires Proper(x)
    ensures Rot(Flip(Rot(Flip(x), 2)), -2) == x
  {
    FlipConjugatesRot(x, 2);
    RotPeriodic(x, -2, 2);
    RotInverse(x, 2);
  }

  lemma MirroredTurnUndone3<T>(x: Grid<T>)
    requires Proper(x)
    ensures Rot(Flip(Rot(Flip(x), 3)), -1) == x
  {
    FlipConjugatesRot(x, 3);
    RotPeriodic(x, -3, 1);
    RotInverse(x, 1);
  }

  /** Only the number of turns modulo 4 matters. */
  lemma RotPeriodic<T>(g: Grid<T>, k: int, k': int)
    requires Rect(g) && k % 4 == k' % 4
    ensures Rot(g, k) == Rot(g, k')
  {
  }

  /** The mean of copies of one grid is that grid. */
  lemma {:induction false} MeanOfCopies(gs: seq<Grid<real>>, x: Grid<real>, n: nat)
    requires |gs| > 0 && IsGrid(x, n, n) && forall b :: 0 <= b < |gs| ==> gs[b] == x
    ensures Mean(gs, n) == x
  {
    var c := |gs| as real;
    forall i, j | 0 <= i < n && 0 <= j < n
      ensures Mean(gs, n)[i][j] == x[i][j]
    {
      CellSumOfCopies(gs, x, n, i, j);
      assert c * x[i][j] / c == x[i][j];
    }
    GridExt(Mean(gs, n), x, n, n);
  }

  lemma {:induction false} CellSumOfCopies(gs: seq<Grid<real>>, x: Grid<real>, n: nat, i: nat, j: nat)
    requires IsGrid(x, n, n) && i < n && j < n && forall b :: 0 <= b < |gs| ==> gs[b] == x
    ensures AllSquare(gs, n) && CellSum(gs, i, j, n) == (|gs| as real) * x[i][j]
    decreases |gs|
  {
    if |gs| > 0 {
      CellSumOfCopies(gs[..|gs| - 1], x, n, i, j);
    }
  }

  lemma MeanOfEight(x: Grid<real>, n: nat)
    requires IsGrid(x, n, n)
    ensures Mean([x, x, x, x, x, x, x, x], n) == x
  {
    MeanOfCopies([x, x, x, x, x, x, x, x], x, n);
  }

  /** The eight variants of one grid, in the order of the forward step. */
  function Variants(x: Grid<real>, n: nat): (v: seq<Grid<real>>)
    requires IsGrid(x, n, n)
    ensures |v| == 8 && AllSquare(v, n) && v[0] == x
  {
    var f := Flip(x);
    [x, Rot(x, 1), Rot(x, 2), Rot(x, 3), f, Rot(f, 1), Rot(f, 2), Rot(f, 3)]
  }

  /** With the identity for a network, the backward step of one image
      undoes its forward step: every inverse transform cancels its forward
      transform and the mean of eight equal grids is the grid. */
  lemma RealignedVariants(x: Grid<real>, n: nat)
    requires IsGrid(x, n, n) && n > 0
    ensures Realigned(Variants(x, n), n) == x
  {
    VariantsMirroredBack(x, n);
    UnrotateVariants(x, n);
    MeanOfEight(x, n);
  }

  /** Mirroring back the last four variants gives the mirror of each. */
  lemma VariantsMirroredBack(x: Grid<real>, n: nat)
    requires IsGrid(x, n, n)
    ensures var f := Flip(x);
      var v := Variants(x, n);
      v[..4] + FlipAll(v[4..], n) ==
        [x, Rot(x, 1), Rot(x, 2), Rot(x, 3), Flip(f), Flip(Rot(f, 1)), Flip(Rot(f, 2)), Flip(Rot(f, 3))]
  {
    var f := Flip(x);
    var v := Variants(x, n);
    var tail := [f, Rot(f, 1), Rot(f, 2), Rot(f, 3)];
    assert v[4..] == tail;
    assert FlipAll(tail, n) == [Flip(f), Flip(Rot(f, 1)), Flip(Rot(f, 2)), Flip(Rot(f, 3))];
  }

  /** For a batch of one image the backward step as written is the
      per-image one. */
  lemma AsWrittenIsPerImageForOne(outs: seq<Grid<real>>, n: nat)
    requires |outs| == 8 && AllSquare(outs, n)
    ensures CombineAsWritten(outs, n) == CombinePerImage(outs, 1, n)
    ensures CombineAsWritten(outs, n) == [Realigned(outs, n)]
  {
    assert VariantsOf(outs, 1, 0, n) == outs;
    assert FlipAll(outs[4..], n)[..4] == FlipAll(outs[4..], n);
  }

  /** The forward step puts the variants of image `b` at `b`, `count + b`,
      ..., `7 * count + b`. */
  lemma ExpandPlacesVariants(batch: seq<Grid<real>>, n: nat, b: nat)
    requires AllSquare(batch, n) && b < |batch|
    ensures VariantsOf(Expand(batch, n), |batch|, b, n) == Variants(batch[b], n)
  {
    var flipped := FlipAll(batch, n);
    BlockAt(batch, RotAll(batch, 1, n), RotAll(batch, 2, n), RotAll(batch, 3, n),
      flipped, RotAll(flipped, 1, n), RotAll(flipped, 2, n), RotAll(flipped, 3, n), b);
  }

  /** Element `b` of block `k` of eight blocks of one length `c` sits at
      `k * c + b` of their concatenation. */
  lemma BlockAt<T>(s0: seq<T>, s1: seq<T>, s2: seq<T>, s3: seq<T>,
                   s4: seq<T>, s5: seq<T>, s6: seq<T>, s7: seq<T>, b: nat)
    requires b < |s0| && |s1| == |s2| == |s3| == |s4| == |s5| == |s6| == |s7| == |s0|
    ensures var c, s := |s0|, s0 + s1 + s2 + s3 + s4 + s5 + s6 + s7;
      && s[b] == s0[b] && s[c + b] == s1[b] && s[2 * c + b] == s2[b] && s[3 * c + b] == s3[b]
      && s[4 * c + b] == s4[b] && s[5 * c + b] == s5[b] && s[6 * c + b] == s6[b] && s[7 * c + b] == s7[b]
  {
  }

  /** With the identity for a network, the ensemble as written returns a
      batch of one image unchanged. */
  lemma EnsembleRoundTrip(x: Grid<real>, n: nat)
    requires IsGrid(x, n, n) && n > 0
    ensures CombineAsWritten(Expand([x], n), n) == [x]
  {
    var outs := Expand([x], n);
    AsWrittenIsPerImageForOne(outs, n);
    ExpandPlacesVariants([x], n, 0);
    assert VariantsOf(outs, 1, 0, n) == outs;
    RealignedVariants(x, n);
  }

  /** With the identity for a network, the per-image backward step returns
      every batch unchanged, whatever its size. */
  lemma PerImageRoundTrip(batch: seq<Grid<real>>, n: nat)
    requires AllSquare(batch, n) && n > 0
    ensures CombinePerImage(Expand(batch, n), |batch|, n) == batch
  {
    var r := CombinePerImage(Expand(batch, n), |batch|, n);
    forall b | 0 <= b < |batch|
      ensures r[b] == batch[b]
    {
      ExpandPlacesVariants(batch, n, b);
      RealignedVariants(batch[b], n);
    }
  }

  /** A 1 by 1 grid is left as it is by every turn and the mirror. */
  lemma SinglePixelFixed(g: Grid<real>, k: int)
    requires IsGrid(g, 1, 1)
    ensures Rot(g, k) == g && Flip(g) == g
  {
    GridExt(Flip(g), g, 1, 1);
    GridExt(Rot(g, k), g, 1, 1);
  }

  /** Turning and mirroring leave a batch of 1 by 1 grids as it is. */
  lemma SinglePixelBatchFixed(gs: seq<Grid<real>>, k: int)
    requires AllSquare(gs, 1)
    ensures RotAll(gs, k, 1) == gs && FlipAll(gs, 1) == gs
  {
    forall b | 0 <= b < |gs|
      ensures Rot(gs[b], k) == gs[b] && Flip(gs[b]) == gs[b]
    {
      SinglePixelFixed(gs[b], k);
    }
  }

  /** The forward step repeats a batch of 1 by 1 grids eight times. */
  lemma SinglePixelExpand(gs: seq<Grid<real>>)
    requires AllSquare(gs, 1)
    ensures Expand(gs, 1) == gs + gs + gs + gs + gs + gs + gs + gs
  {
    SinglePixelBatchFixed(gs, 1);
    SinglePixelBatchFixed(gs, 2);
    SinglePixelBatchFixed(gs, 3);
  }

  /** The backward rotations leave eight 1 by 1 grids as they are. */
  lemma SinglePixelUnrotate(o: seq<Grid<real>>)
    requires |o| == 8 && AllSquare(o, 1)
    ensures Unrotate(o, 1) == o
  {
    SinglePixelFixed(o[1], -1);
    SinglePixelFixed(o[2], -2);
    SinglePixelFixed(o[3], -3);
    SinglePixelFixed(o[5], 1);
    SinglePixelFixed(o[6], -2);
    SinglePixelFixed(o[7], -1);
  }

  /** For a batch of two images the backward step as written mixes them:
      with the identity for a network, the single-pixel images 0 and 8 come
      back as one image holding their mean 4. */
  lemma AsWrittenMixesBatchOfTwo()
    ensures var x, y := [[0.0]], [[8.0]];
      CombineAsWritten(Expand([x, y], 1), 1) == [[[4.0]]]
  {
    var x, y := [[0.0]], [[8.0]];
    var outs := Expand([x, y], 1);
    SinglePixelExpand([x, y]);
    assert outs[..4] == [x, y, x, y];
    assert outs[4..][..4] == [x, y, x, y];
    SinglePixelBatchFixed(outs[4..], 0);
    var o := [x, y, x, y, x, y, x, y];
    assert outs[..4] + FlipAll(outs[4..], 1)[..4] == o;
    SinglePixelUnrotate(o);
    PairSum(x, y);
  }

  lemma PairSum(x: Grid<real>, y: Grid<real>)
    requires x == [[0.0]] && y == [[8.0]]
    ensures Mean([x, y, x, y, x, y, x, y], 1) == [[4.0]]
  {
    var u := [x, y, x, y, x, y, x, y];
    assert CellSum(u[..1], 0, 0, 1) == 0.0 by { assert |u[..1][..0]| == 0; assert u[..1][0] == x; }
    assert CellSum(u[..2], 0, 0, 1) == 8.0 by { assert u[..2][..1] == u[..1]; assert u[..2][1] == y; }
    assert CellSum(u[..4], 0, 0, 1) == 16.0 by { assert u[..4][..3] == u[..3] && u[..3][..2] == u[..2]; }
    assert CellSum(u[..6], 0, 0, 1) == 24.0 by { assert u[..6][..5] == u[..5] && u[..5][..4] == u[..4]; }
    assert CellSum(u, 0, 0, 1) == 32.0 by { assert u[..7][..6] == u[..6]; }
    GridExt(Mean(u, 1), [[4.0]], 1, 1);
  }
}
