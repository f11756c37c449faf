/** Size arithmetic around the network: under 'VALID' padding the network
    trims 92 pixels from every side of its input, so truth and weight maps
    are cropped by the same margin and large-image mosaics are sized to
    the trimmed extent; and the step count derived from a number of
    epochs. */
module Geometry {
  import opened Wrappers

  datatype Padding = Valid | Same

  /** Only the exact string `VALID` selects valid padding; every other value
      takes the `SAME` branch. */
  function PaddingOf(s: string): (p: Padding)
    ensures p == Valid <==> s == "VALID"
  {
    if s == "VALID" then Valid else Same
  }

  /** Pixels trimmed from each side under valid padding, and from both. */
  const Margin: int := 92
  const Shrink: int := 2 * Margin

  /** Side of the network output for an input side: known only under valid
      padding, where it is the input side less 184; the `SAME` branch leaves
      it unspecified (`None`). */
  function OutputSide(input: int, padding: Padding): (r: Option<int>)
    ensures r.Some? <==> padding == Valid
    ensures r.Some? ==> r.value + 2 * Margin == input
  {
    if padding == Valid then Some(input - 184) else None
  }

  /** Side of the large-image mosaic for a recorded image side. */
  function MosaicSide(shape: int, padding: Padding): (r: int)
    ensures padding == Same ==> r == shape
    ensures padding == Valid ==> r + 2 * Margin == shape
  {
    if padding == Valid then shape - 184 else shape
  }

  function Clamp(x: int, lo: int, hi: int): int
    requires lo <= hi
  {
    if x < lo then lo else if x > hi then hi else x
  }

  /** Python's `s[start:stop]`: a negative bound counts from the end, both
      bounds are clamped to the sequence, and crossed bounds give `[]`. */
  function PySlice<T>(s: seq<T>, start: int, stop: int): (r: seq<T>)
    ensures 0 <= start <= stop <= |s| ==> r == s[start..stop]
    ensures |r| <= |s|
  {
    var n := |s|;
    var a := Clamp(if start < 0 then start + n else start, 0, n);
    var b := Clamp(if stop < 0 then stop + n else stop, 0, n);
    if a < b then s[a..b] else []
  }

  type Grid<T> = seq<seq<T>>

  /** `h` rows of `w` cells each. */
  predicate IsGrid<T>(g: Grid<T>, h: nat, w: nat) {
    |g| == h && forall i :: 0 <= i < h ==> |g[i]| == w
  }

  /** The crop of a truth or weight map configured as `height` by `width`:
      rows and then columns `92:(side - 92)`. */
  function CropToValid<T>(g: Grid<T>, height: int, width: int): Grid<T>
  {
    var rows := PySlice(g, Margin, height - Margin);
    seq(|rows|, i requires 0 <= i < |rows| => PySlice(rows[i], Margin, width - Margin))
  }

  /** The side of the truth and weight maps the loss and the metrics see.
      They are cropped only under valid padding and only when
      `is_training == True`; in the other modes they keep the input side.
      Under valid padding an unbound `is_training` (a mode no branch
      matched) raises at the test, which is `None`. */
  function TruthSide(side: int, padding: Padding, isTraining: Option<bool>): Option<int> {
    if padding == Same then Some(side)
    else if isTraining == None then None
    else if isTraining.value then Some(side - Shrink)
    else Some(side)
  }

  /** Under valid padding, the truth has the output's side exactly in
      training; in the other modes it stays 184 pixels larger than the
      output, and it is left unknown only when `is_training` is unbound. */
  lemma TruthAlignedOnlyInTraining(side: int, isTraining: Option<bool>)
    ensures TruthSide(side, Valid, isTraining) == OutputSide(side, Valid) <==> isTraining == Some(true)
    ensures isTraining == Some(false) ==> TruthSide(side, Valid, isTraining) == Some(side)
    ensures TruthSide(side, Valid, isTraining) == None <==> isTraining == None
  {
  }

  /** For inputs of at least 184 pixels per side, the cropped map has exactly
      the network's output extent and pixel (i, j) of it is pixel
      (i + 92, j + 92) of the input, so truth stays aligned with the
      prediction. */
  lemma CropMatchesOutput<T>(g: Grid<T>, height: int, width: int)
    requires height >= Shrink && width >= Shrink && IsGrid(g, height, width)
    ensures IsGrid(CropToValid(g, height, width), height - Shrink, width - Shrink)
    ensures OutputSide(height, Valid) == Some(height - Shrink)
    ensures OutputSide(width, Valid) == Some(width - Shrink)
    ensures forall i, j :: 0 <= i < height - Shrink && 0 <= j < width - Shrink ==>
      CropToValid(g, height, width)[i][j] == g[i + Margin][j + Margin]
  {
  }

  /** An input side below 184 leaves nothing after the crop, whatever the
      sign of `side - 92`. */
  lemma CropEmptyBelowShrink<T>(s: seq<T>)
    requires |s| < Shrink
    ensures PySlice(s, Margin, |s| - Margin) == []
  {
  }

  function Abs(x: int): nat {
    if x < 0 then -x else x
  }

  /** Python's `int(a / b)` for integers: the true quotient truncated toward
      zero (floating-point rounding of huge operands is not modelled). Its
      magnitude is the number of whole `|b|` in `|a|` and its sign is the
      quotient's, which together fix it for every `a` and non-zero `b`. */
  function TruncDiv(a: int, b: int): (q: int)
    requires b != 0
    ensures b > 0 && a >= 0 ==> q == a / b
    ensures (a < 0) != (b < 0) ==> q <= 0
    ensures (a < 0) == (b < 0) ==> q >= 0
    ensures Abs(q) * Abs(b) <= Abs(a) < (Abs(q) + 1) * Abs(b)
  {
    var x, y := Abs(a), Abs(b);
    var m := x / y;
    DivBounds(x, y);
    if (a < 0) != (b < 0) then -m else m
  }

  /** Floor division of naturals counts the whole divisors in the dividend. */
  lemma DivBounds(x: int, y: int)
    requires x >= 0 && y > 0
    ensures x / y >= 0
    ensures (x / y) * y <= x < (x / y + 1) * y
  {
    var m := x / y;
    assert x == m * y + x % y && 0 <= x % y < y;
    assert (m + 1) * y == m * y + y;
  }

  /** `number_of_steps`, overridden when `epochs` is given by
      `epochs * int(len(image_path_list) / batch_size)`; `None` when that
      division raises, for a batch size of 0. */
  function StepCount(epochs: Option<int>, numberOfSteps: int, imageCount: nat, batchSize: int): (r: Option<int>)
    ensures r == None <==> epochs.Some? && batchSize == 0
    ensures epochs == None ==> r == Some(numberOfSteps)
    ensures epochs.Some? && batchSize > 0 ==> r == Some(epochs.value * (imageCount / batchSize))
    ensures epochs.Some? && batchSize < 0 ==> r == Some(epochs.value * -(imageCount / -batchSize))
  {
    if epochs == None then Some(numberOfSteps)
    else if batchSize == 0 then None
    else Some(epochs.value * TruncDiv(imageCount, batchSize))
  }

  /** With epochs and a positive batch size, every epoch runs as many steps
      as there are full batches in the image list: a last partial batch adds
      no step, and the steps of one epoch never cover more images than the
      list holds. */
  lemma StepsAreFullBatches(epochs: int, numberOfSteps: int, imageCount: nat, batchSize: int)
    requires batchSize > 0
    ensures var perEpoch := TruncDiv(imageCount, batchSize);
      && StepCount(Some(epochs), numberOfSteps, imageCount, batchSize) == Some(epochs * perEpoch)
      && perEpoch * batchSize <= imageCount < (perEpoch + 1) * batchSize
  {
    var q, r := imageCount / batchSize, imageCount % batchSize;
    assert imageCount == q * batchSize + r && 0 <= r < batchSize;
    assert (q + 1) * batchSize == q * batchSize + batchSize;
  }
}
