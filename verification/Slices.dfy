/** Cutting an image into overlapping slices of a fixed size, axis by axis. */
module Slices {
  import opened Wrappers

  /** Division rounding towards minus infinity, for either sign of the divisor. */
  function FloorDiv(a: int, b: int): int
    requires b != 0
  {
    if b > 0 then a / b else (-a) / (-b)
  }

  function Min(a: int, b: int): int {
    if b < a then b else a
  }

  /** How many slices an axis gets; a negative count means none. */
  function Steps(img: int, crop: int, step: int): int
    requires img > crop ==> step != 0
  {
    if img <= crop then 1 else FloorDiv(img - crop + step - 1, step) + 1
  }

  /** Slice starts along one axis: multiples of the step, the last moved back to end at the edge. */
  function Starts(img: int, crop: int, overlap: int): (r: seq<int>)
    requires img > crop ==> overlap != crop
    ensures |r| == (if Steps(img, crop, crop - overlap) < 0 then 0 else Steps(img, crop, crop - overlap))
  {
    var step := crop - overlap;
    var n := Steps(img, crop, step);
    var base := seq(if n < 0 then 0 else n, k => k * step);
    if img > crop && n > 1 then base[n - 1 := img - crop] else base
  }

  // ---------- what a tiling is ----------

  predicate Inside(starts: seq<int>, img: int, size: int) {
    forall k :: 0 <= k < |starts| ==> 0 <= starts[k] && starts[k] + size <= img
  }

  predicate Increasing(starts: seq<int>) {
    forall k :: 0 <= k < |starts| - 1 ==> starts[k] < starts[k + 1]
  }

  predicate Overlapping(starts: seq<int>, size: int, overlap: int) {
    forall k :: 0 <= k < |starts| - 1 ==> starts[k] + size - starts[k + 1] >= overlap
  }

  predicate Holds(starts: seq<int>, size: int, x: int, k: int) {
    0 <= k < |starts| && starts[k] <= x < starts[k] + size
  }

  ghost predicate Covered(starts: seq<int>, size: int, x: int) {
    exists k :: Holds(starts, size, x, k)
  }

  ghost predicate CoversAxis(starts: seq<int>, img: int, size: int) {
    forall x :: 0 <= x < img ==> Covered(starts, size, x)
  }

  /** Slices of the full size inside the image, in order, overlapping enough, and covering every pixel. */
  ghost predicate Tiling(starts: seq<int>, img: int, crop: int, overlap: int) {
    var size := Min(crop, img);
    && Inside(starts, img, size) && Increasing(starts)
    && Overlapping(starts, size, overlap) && CoversAxis(starts, img, size)
  }

  // ---------- the starts tile the axis ----------

  /** `n - 1` is the distance to the edge in steps, rounded up. */
  lemma StepsRoundUp(distance: int, step: int) returns (m: int)
    requires distance > 0 && step > 0
    ensures m == (distance + step - 1) / step
    ensures m >= 1 && (m - 1) * step < distance <= m * step
  {
    m := (distance + step - 1) / step;
    var r := (distance + step - 1) % step;
    assert distance + step - 1 == m * step + r;
    assert m < 1 ==> m * step <= 0;
  }

  lemma MultiplesGrow(k: int, m: int, step: int)
    requires step > 0 && k <= m
    ensures k * step <= m * step
  {
    assert (m - k) * step >= 0;
  }

  lemma StartAt(img: int, crop: int, overlap: int, k: int)
    requires img > crop && overlap < crop && 0 <= k < |Starts(img, crop, overlap)|
    ensures Starts(img, crop, overlap)[k] == Min(k * (crop - overlap), img - crop)
    ensures k * (crop - overlap) < img - crop <==> k < |Starts(img, crop, overlap)| - 1
  {
    var step := crop - overlap;
    var m := StepsRoundUp(img - crop, step);
    if k < m { MultiplesGrow(k, m - 1, step); }
  }

  lemma ManySteps(img: int, crop: int, overlap: int)
    requires img > crop && overlap < crop
    ensures |Starts(img, crop, overlap)| >= 2
  {
    var m := StepsRoundUp(img - crop, crop - overlap);
  }

  /** Extending the run of slices by one that starts no later than where it ends keeps coverage. */
  lemma {:induction false} ChainCovers(starts: seq<int>, size: int, x: int)
    requires starts != [] && starts[0] <= x < starts[|starts| - 1] + size
    requires forall k :: 0 <= k < |starts| - 1 ==> starts[k + 1] <= starts[k] + size
    ensures Covered(starts, size, x)
  {
    var n := |starts| - 1;
    if starts[n] <= x {
      assert Holds(starts, size, x, n);
    } else {
      var front := starts[..n];
      ChainCovers(front, size, x);
      var k :| Holds(front, size, x, k);
      assert Holds(starts, size, x, k);
    }
  }

  lemma StartsStep(img: int, crop: int, overlap: int, k: int)
    requires img > crop > 0 && 0 <= overlap < crop && 0 <= k < |Starts(img, crop, overlap)| - 1
    ensures var s := Starts(img, crop, overlap); s[k] < s[k + 1] && s[k] + crop - s[k + 1] >= overlap
  {
    hide Starts;
    var step := crop - overlap;
    StartAt(img, crop, overlap, k);
    StartAt(img, crop, overlap, k + 1);
    assert (k + 1) * step == k * step + step;
  }

  lemma StartInside(img: int, crop: int, overlap: int, k: int)
    requires img > crop > 0 && 0 <= overlap < crop && 0 <= k < |Starts(img, crop, overlap)|
    ensures 0 <= Starts(img, crop, overlap)[k] <= img - crop
  {
    hide Starts;
    StartAt(img, crop, overlap, k);
    MultiplesGrow(0, k, crop - overlap);
  }

  /** The computed starts tile the axis, and the first and last slices touch the edges. */
  lemma StartsTile(img: int, crop: int, overlap: int)
    requires img > 0 && crop > 0 && 0 <= overlap && (img > crop ==> overlap < crop)
    ensures Tiling(Starts(img, crop, overlap), img, crop, overlap)
  {
    var s := Starts(img, crop, overlap);
    if img <= crop {
      forall x | 0 <= x < img ensures Covered(s, img, x) { assert Holds(s, img, x, 0); }
    } else {
      ManyTile(img, crop, overlap);
    }
  }

  lemma ManyTile(img: int, crop: int, overlap: int)
    requires img > crop > 0 && 0 <= overlap < crop
    ensures Tiling(Starts(img, crop, overlap), img, crop, overlap)
  {
    hide Starts, Covered;
    var s := Starts(img, crop, overlap);
    var n := |s|;
    ManySteps(img, crop, overlap);
    StartAt(img, crop, overlap, 0);
    StartAt(img, crop, overlap, n - 1);
    forall k | 0 <= k < n - 1 ensures s[k] < s[k + 1] && s[k] + crop - s[k + 1] >= overlap {
      StartsStep(img, crop, overlap, k);
    }
    forall k | 0 <= k < n ensures 0 <= s[k] <= img - crop {
      StartInside(img, crop, overlap, k);
    }
    forall x | 0 <= x < img ensures Covered(s, crop, x) {
      ChainCovers(s, crop, x);
    }
  }

  // ---------- no tiling has fewer slices ----------

  lemma {:induction false} OrderedStarts(starts: seq<int>, i: int, j: int)
    requires Increasing(starts) && 0 <= i <= j < |starts|
    ensures starts[i] <= starts[j]
    decreases j - i
  {
    if i < j { OrderedStarts(starts, i, j - 1); }
  }

  lemma {:induction false} StartsBounded(starts: seq<int>, size: int, overlap: int, k: int)
    requires Overlapping(starts, size, overlap) && 0 <= k < |starts|
    ensures starts[k] <= starts[0] + k * (size - overlap)
  {
    if k > 0 {
      StartsBounded(starts, size, overlap, k - 1);
      assert k * (size - overlap) == (k - 1) * (size - overlap) + (size - overlap);
    }
  }

  /** Any sequence of full-size slices inside the image that covers it and overlaps as asked is at least
      as long as the computed one. */
  lemma StartsFewest(img: int, crop: int, overlap: int, other: seq<int>)
    requires img > 0 && crop > 0 && 0 <= overlap && (img > crop ==> overlap < crop)
    requires Tiling(other, img, crop, overlap)
    ensures |other| >= |Starts(img, crop, overlap)|
  {
    hide Increasing, Overlapping, Inside;
    var size := Min(crop, img);
    assert Covered(other, size, 0);
    var k0 :| Holds(other, size, 0, k0);
    if img > crop {
      FirstAtEdge(other, img, crop, overlap);
      var step, n := crop - overlap, |other|;
      assert Covered(other, crop, img - 1);
      var k1 :| Holds(other, crop, img - 1, k1);
      OrderedStarts(other, k1, n - 1);
      StartsBounded(other, crop, overlap, n - 1);
      ManySteps(img, crop, overlap);
      if n < |Starts(img, crop, overlap)| {
        StartAt(img, crop, overlap, n - 1);
        assert false;
      }
    }
  }

  lemma FirstAtEdge(other: seq<int>, img: int, crop: int, overlap: int)
    requires img > crop > 0 && Tiling(other, img, crop, overlap)
    ensures other != [] && other[0] <= 0
  {
    hide Overlapping;
    assert Covered(other, crop, 0);
    var k :| Holds(other, crop, 0, k);
    OrderedStarts(other, 0, k);
  }

  // ---------- exactly when the axis is covered ----------

  lemma NegativeSteps(distance: int, step: int)
    requires distance > 0 && step < 0
    ensures FloorDiv(distance + step - 1, step) + 1 == 2 <==> distance == 1
    ensures FloorDiv(distance + step - 1, step) + 1 <= 2
  {
    var a, b := 1 - step - distance, -step;
    assert FloorDiv(distance + step - 1, step) == a / b;
    assert a <= b;
    if distance == 1 {
      assert a == b;
    } else {
      assert a < b;
      var q, r := a / b, a % b;
      assert a == b * q + r;
      assert q >= 1 ==> b * q >= b;
    }
  }

  /** For any overlap at least 0, even one as large as the slice or larger: every pixel is covered exactly
      when one slice is enough, or the overlap is smaller than the slice, or, by luck, the image is one
      pixel larger than a slice smaller than the overlap. With equality the computation divides by zero. */
  lemma CoveredExactly(img: int, crop: int, overlap: int)
    requires img > 0 && crop > 0 && 0 <= overlap && (img > crop ==> overlap != crop)
    ensures CoversAxis(Starts(img, crop, overlap), img, Min(crop, img)) <==>
      img <= crop || overlap < crop || img == crop + 1
  {
    var s := Starts(img, crop, overlap);
    if img <= crop || overlap < crop {
      StartsTile(img, crop, overlap);
    } else {
      NegativeSteps(img - crop, crop - overlap);
      if img == crop + 1 {
        assert s == [0, 1];
        forall x | 0 <= x < img ensures Covered(s, crop, x) {
          assert Holds(s, crop, x, if x == 0 then 0 else 1);
        }
      } else {
        assert |s| <= 1 && (|s| == 1 ==> s[0] == 0);
        assert !Covered(s, crop, img - 1);
      }
    }
  }

  // ---------- both axes ----------

  datatype Size = Size(h: int, w: int)

  datatype Slice = Slice(y1: int, x1: int, y2: int, x2: int)

  datatype SliceError = DivisionByZero

  function SliceAt(y: int, x: int, imgsz: Size, crop: Size): Slice {
    Slice(y, x, Min(y + crop.h, imgsz.h), Min(x + crop.w, imgsz.w))
  }

  /** One row of the grid. */
  function Row(y: int, xs: seq<int>, imgsz: Size, crop: Size): (r: seq<Slice>)
    ensures |r| == |xs|
  {
    seq(|xs|, j requires 0 <= j < |xs| => SliceAt(y, xs[j], imgsz, crop))
  }

  /** The grid, row by row. */
  function Grid(ys: seq<int>, xs: seq<int>, imgsz: Size, crop: Size): seq<Slice> {
    if ys == [] then [] else Grid(ys[..|ys| - 1], xs, imgsz, crop) + Row(ys[|ys| - 1], xs, imgsz, crop)
  }

  predicate Divides(imgsz: Size, crop: Size, overlap: Size) {
    (imgsz.h > crop.h ==> overlap.h != crop.h) && (imgsz.w > crop.w ==> overlap.w != crop.w)
  }

  function SlicesOf(imgsz: Size, crop: Size, overlap: Size): seq<Slice>
    requires Divides(imgsz, crop, overlap)
  {
    Grid(Starts(imgsz.h, crop.h, overlap.h), Starts(imgsz.w, crop.w, overlap.w), imgsz, crop)
  }

  method CalculateSlices(imgsz: Size, crop: Size, overlap: Size) returns (r: Result<seq<Slice>, SliceError>)
    ensures r.Ok? <==> Divides(imgsz, crop, overlap)
    ensures r.Ok? ==> r.value == SlicesOf(imgsz, crop, overlap)
  {
    if !Divides(imgsz, crop, overlap) {
      return Err(DivisionByZero);
    }
    var ys := Starts(imgsz.h, crop.h, overlap.h);
    var xs := Starts(imgsz.w, crop.w, overlap.w);
    var grid: seq<Slice> := [];
    for i := 0 to |ys|
      invariant grid == Grid(ys[..i], xs, imgsz, crop)
    {
      var row: seq<Slice> := [];
      for j := 0 to |xs|
        invariant row == Row(ys[i], xs, imgsz, crop)[..j]
      {
        row := row + [SliceAt(ys[i], xs[j], imgsz, crop)];
      }
      grid := grid + row;
      assert ys[..i + 1][..i] == ys[..i];
    }
    assert ys[..|ys|] == ys;
    r := Ok(grid);
  }

  lemma {:induction false} GridHas(ys: seq<int>, xs: seq<int>, imgsz: Size, crop: Size, i: int, j: int)
    requires 0 <= i < |ys| && 0 <= j < |xs|
    ensures SliceAt(ys[i], xs[j], imgsz, crop) in Grid(ys, xs, imgsz, crop)
  {
    var n := |ys| - 1;
    if i < n {
      GridHas(ys[..n], xs, imgsz, crop, i, j);
    } else {
      assert Row(ys[n], xs, imgsz, crop)[j] == SliceAt(ys[i], xs[j], imgsz, crop);
    }
  }

  lemma {:induction false} GridOnly(ys: seq<int>, xs: seq<int>, imgsz: Size, crop: Size, s: Slice)
    returns (i: int, j: int)
    requires s in Grid(ys, xs, imgsz, crop)
    ensures 0 <= i < |ys| && 0 <= j < |xs| && s == SliceAt(ys[i], xs[j], imgsz, crop)
  {
    var n := |ys| - 1;
    if s in Grid(ys[..n], xs, imgsz, crop) {
      i, j := GridOnly(ys[..n], xs, imgsz, crop, s);
    } else {
      assert s in Row(ys[n], xs, imgsz, crop);
      i := n;
      j :| 0 <= j < |xs| && Row(ys[n], xs, imgsz, crop)[j] == s;
    }
  }

  lemma {:induction false} GridCount(ys: seq<int>, xs: seq<int>, imgsz: Size, crop: Size)
    ensures |Grid(ys, xs, imgsz, crop)| == |ys| * |xs|
  {
    if ys != [] {
      GridCount(ys[..|ys| - 1], xs, imgsz, crop);
      assert |ys| * |xs| == (|ys| - 1) * |xs| + |xs|;
    }
  }

  /** Slice `j` of row `i` comes after all slices of the rows above it and the `j` before it. */
  lemma {:induction false} GridAt(ys: seq<int>, xs: seq<int>, imgsz: Size, crop: Size, i: nat, j: nat)
    requires i < |ys| && j < |xs|
    ensures i * |xs| + j < |Grid(ys, xs, imgsz, crop)|
    ensures Grid(ys, xs, imgsz, crop)[i * |xs| + j] == SliceAt(ys[i], xs[j], imgsz, crop)
  {
    var n := |ys| - 1;
    GridCount(ys, xs, imgsz, crop);
    GridCount(ys[..n], xs, imgsz, crop);
    if i < n { GridAt(ys[..n], xs, imgsz, crop, i, j); }
  }

  predicate Fits(overlap: Size, crop: Size) {
    0 <= overlap.h < crop.h && 0 <= overlap.w < crop.w
  }

  /** The image is cut into the fewest slices: every pixel lies in one, and each is inside the image with
      exactly the size of a crop, or of the image where that is smaller. */
  lemma SlicesTileImage(imgsz: Size, crop: Size, overlap: Size, y: int, x: int)
    requires imgsz.h > 0 && imgsz.w > 0 && Fits(overlap, crop)
    requires 0 <= y < imgsz.h && 0 <= x < imgsz.w
    ensures exists s :: s in SlicesOf(imgsz, crop, overlap) && s.y1 <= y < s.y2 && s.x1 <= x < s.x2
  {
    hide Starts, Inside, Increasing, Overlapping, Grid;
    var ys, xs := Starts(imgsz.h, crop.h, overlap.h), Starts(imgsz.w, crop.w, overlap.w);
    StartsTile(imgsz.h, crop.h, overlap.h);
    StartsTile(imgsz.w, crop.w, overlap.w);
    assert Covered(ys, Min(crop.h, imgsz.h), y) && Covered(xs, Min(crop.w, imgsz.w), x);
    var i :| Holds(ys, Min(crop.h, imgsz.h), y, i);
    var j :| Holds(xs, Min(crop.w, imgsz.w), x, j);
    GridHas(ys, xs, imgsz, crop, i, j);
    var s := SliceAt(ys[i], xs[j], imgsz, crop);
    assert s in SlicesOf(imgsz, crop, overlap) && s.y1 <= y < s.y2 && s.x1 <= x < s.x2;
  }

  lemma SlicesFit(imgsz: Size, crop: Size, overlap: Size, s: Slice)
    requires imgsz.h > 0 && imgsz.w > 0 && Fits(overlap, crop) && s in SlicesOf(imgsz, crop, overlap)
    ensures 0 <= s.y1 && s.y2 <= imgsz.h && s.y2 - s.y1 == Min(crop.h, imgsz.h)
    ensures 0 <= s.x1 && s.x2 <= imgsz.w && s.x2 - s.x1 == Min(crop.w, imgsz.w)
  {
    StartsTile(imgsz.h, crop.h, overlap.h);
    StartsTile(imgsz.w, crop.w, overlap.w);
    var i, j := GridOnly(Starts(imgsz.h, crop.h, overlap.h), Starts(imgsz.w, crop.w, overlap.w), imgsz, crop, s);
  }

  // ---------- the detector's configuration ----------

  datatype Cropping = Cropping(crop: Size, overlap: Size)

  /** The slicing detector takes the crop size of its model but checks the overlap against the crop size
      it was given. */
  function Configure(model: Size, crop: Size, overlap: Size): Cropping {
    Cropping(
      if model != crop then model else crop,
      if overlap.h >= crop.h || overlap.w >= crop.w || overlap.h < 0 || overlap.w < 0 then Size(0, 0) else overlap)
  }

  /** So the configured overlap fits the configured crop exactly when the overlap was rejected or it fits
      the model as well. */
  lemma ConfiguredFitsExactly(model: Size, crop: Size, overlap: Size)
    requires model.h > 0 && model.w > 0
    ensures var c := Configure(model, crop, overlap);
      Fits(c.overlap, c.crop) <==> !Fits(overlap, crop) || (overlap.h < model.h && overlap.w < model.w)
  {
  }

  /** A configuration that passes the check and then leaves the image without any slice. */
  lemma ConfiguredMayMissEverything()
    ensures var c := Configure(Size(320, 320), Size(640, 640), Size(400, 400));
      Divides(Size(1000, 1000), c.crop, c.overlap) && SlicesOf(Size(1000, 1000), c.crop, c.overlap) == []
  {
    assert FloorDiv(1000 - 320 + -80 - 1, -80) == (-599) / 80 == -8;
    assert Starts(1000, 320, 400) == [];
  }
}
