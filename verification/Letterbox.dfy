/** Letterboxing an image and mapping detections back, in exact arithmetic. */
module Letterbox {
  import opened Rounding
  import opened Wrappers

  // ---------- parameters ----------

  datatype Size = Size(h: int, w: int)

  datatype Options = Options(auto: bool, scaleFill: bool, scaleUp: bool, stride: int)

  datatype Params = Params(ratioH: real, ratioW: real, unpad: Size, dh: real, dw: real)

  predicate Proper(s: Size) {
    s.h > 0 && s.w > 0
  }

  function MinReal(a: real, b: real): real {
    if b < a then b else a
  }

  /** The common scale of both axes. */
  function Scale(shape: Size, target: Size, o: Options): (r: real)
    requires Proper(shape) && Proper(target)
    ensures r > 0.0
  {
    var r := MinReal(target.h as real / shape.h as real, target.w as real / shape.w as real);
    if o.scaleUp then r else MinReal(r, 1.0)
  }

  /** A side at the common scale. */
  function Resized(side: int, r: real): int {
    Round(side as real * r)
  }

  /** Whether the sides are stretched independently; padding to the stride takes precedence. */
  predicate Stretches(o: Options) {
    o.scaleFill && !o.auto
  }

  function ComputeParams(shape: Size, target: Size, o: Options): Params
    requires Proper(shape) && Proper(target) && (o.auto ==> o.stride > 0)
  {
    var r := Scale(shape, target, o);
    var unpad := Size(Resized(shape.h, r), Resized(shape.w, r));
    var dw, dh := target.w - unpad.w, target.h - unpad.h;
    if o.auto then
      Params(r, r, unpad, (dh % o.stride) as real / 2.0, (dw % o.stride) as real / 2.0)
    else if o.scaleFill then
      Params(target.h as real / shape.h as real, target.w as real / shape.w as real, target, 0.0, 0.0)
    else
      Params(r, r, unpad, dh as real / 2.0, dw as real / 2.0)
  }

  // ---------- the letterboxed image ----------

  datatype Padding = Padding(top: int, bottom: int, left: int, right: int)

  datatype Boxed = Boxed(params: Params, padding: Padding)

  datatype LetterboxError = EmptyResize

  function Padded(b: Boxed): Size {
    Size(b.params.unpad.h + b.padding.top + b.padding.bottom, b.params.unpad.w + b.padding.left + b.padding.right)
  }

  /** A side that scales to half a pixel or less. */
  predicate TooThin(shape: Size, target: Size, o: Options)
    requires Proper(shape) && Proper(target)
  {
    var r := Scale(shape, target, o);
    !Stretches(o) && (shape.h as real * r <= 0.5 || shape.w as real * r <= 0.5)
  }

  /** Resizing to an empty image fails; otherwise the border is added. */
  method Letterbox(shape: Size, target: Size, o: Options) returns (r: Result<Boxed, LetterboxError>)
    requires Proper(shape) && Proper(target) && (o.auto ==> o.stride > 0)
    ensures r.Err? <==> TooThin(shape, target, o)
    ensures r.Ok? ==>
      && r.value.params == ComputeParams(shape, target, o)
      && (!o.auto ==> Padded(r.value) == target)
      && (o.auto ==> PaddedToStride(r.value, target, o.stride))
      && Centred(r.value.padding)
  {
    hide Round, Resized, TooThin, PaddedToStride, Scale;
    var p := ComputeParams(shape, target, o);
    UnpadWithin(shape, target, o);
    if shape != p.unpad && (p.unpad.h == 0 || p.unpad.w == 0) {
      return Err(EmptyResize);
    }
    var top, bottom := Round(p.dh - 0.1), Round(p.dh + 0.1);
    var left, right := Round(p.dw - 0.1), Round(p.dw + 0.1);
    Gaps(shape, target, o);
    r := Ok(Boxed(p, Padding(top, bottom, left, right)));
  }

  /** Borders are not negative and leave the image centred up to one pixel, the odd pixel at the far side. */
  predicate Centred(p: Padding) {
    0 <= p.top <= p.bottom <= p.top + 1 && 0 <= p.left <= p.right <= p.left + 1
  }

  /** The least padding that makes each side congruent to the target's modulo the stride. */
  predicate PaddedToStride(b: Boxed, target: Size, stride: int)
    requires stride > 0
  {
    var s, u := Padded(b), b.params.unpad;
    && s.h % stride == target.h % stride && u.h <= s.h <= target.h && s.h - u.h < stride
    && s.w % stride == target.w % stride && u.w <= s.w <= target.w && s.w - u.w < stride
  }

  /** So the padded sides are multiples of the stride exactly when the target's are. */
  lemma MultipleOfStrideExactly(b: Boxed, target: Size, stride: int)
    requires stride > 0 && PaddedToStride(b, target, stride)
    ensures Padded(b).h % stride == 0 && Padded(b).w % stride == 0 <==> target.h % stride == 0 && target.w % stride == 0
  {
  }

  lemma ScaleWithin(shape: Size, target: Size, o: Options)
    requires Proper(shape) && Proper(target)
    ensures Scale(shape, target, o) <= target.h as real / shape.h as real
    ensures Scale(shape, target, o) <= target.w as real / shape.w as real
  {
  }

  /** The scale is the largest at which both sides fit the target, and no larger than 1 unless enlarging is
      allowed: it meets these conditions, and no other scale that does is larger. */
  lemma ScaleIsLargest(shape: Size, target: Size, o: Options, r: real)
    requires Proper(shape) && Proper(target)
    ensures
      r <= Scale(shape, target, o) <==>
        shape.h as real * r <= target.h as real && shape.w as real * r <= target.w as real && (o.scaleUp || r <= 1.0)
  {
    FitsExactly(shape.h, target.h, r);
    FitsExactly(shape.w, target.w, r);
  }

  lemma FitsExactly(side: int, target: int, r: real)
    requires side > 0
    ensures r <= target as real / side as real <==> side as real * r <= target as real
  {
    var s, q := side as real, target as real / side as real;
    assert s * q == target as real;
    if r <= q { assert s * (q - r) >= 0.0; } else { assert s * (r - q) > 0.0; }
  }

  /** Unless the sides are stretched, the resized image is the image at that scale, to the nearest pixel. */
  lemma UnpadIsScaled(shape: Size, target: Size, o: Options)
    requires Proper(shape) && Proper(target) && (o.auto ==> o.stride > 0)
    ensures var p, r := ComputeParams(shape, target, o), Scale(shape, target, o);
      if Stretches(o) then p.unpad == target
      else
        && -0.5 <= p.unpad.h as real - shape.h as real * r <= 0.5
        && -0.5 <= p.unpad.w as real - shape.w as real * r <= 0.5
  {
    hide Resized, Scale;
    ResizedNear(shape.h, Scale(shape, target, o));
    ResizedNear(shape.w, Scale(shape, target, o));
  }

  lemma ResizedNear(side: int, r: real)
    ensures -0.5 <= Resized(side, r) as real - side as real * r <= 0.5
  {
    hide Round;
    RoundNear(side as real * r);
  }

  lemma SideWithin(side: int, target: int, r: real)
    requires side > 0 && target > 0 && 0.0 < r <= target as real / side as real
    ensures 0 <= Resized(side, r) <= target
    ensures Resized(side, r) == 0 <==> side as real * r <= 0.5
  {
    hide Round;
    var q := target as real / side as real;
    assert q * side as real == target as real;
    var scaled := side as real * r;
    assert 0.0 < scaled <= target as real by { assert side as real * (q - r) >= 0.0; }
    RoundMonotone(0.0, scaled);
    RoundMonotone(scaled, target as real);
    RoundOfInt(0);
    RoundOfInt(target);
    RoundIsZero(scaled);
  }

  /** The resized image is never larger than the target, and empty exactly when a side is too thin. */
  lemma UnpadWithin(shape: Size, target: Size, o: Options)
    requires Proper(shape) && Proper(target) && (o.auto ==> o.stride > 0)
    ensures var u := ComputeParams(shape, target, o).unpad;
      0 <= u.h <= target.h && 0 <= u.w <= target.w && ((u.h == 0 || u.w == 0) <==> TooThin(shape, target, o))
  {
    hide Scale, Resized;
    ScaleWithin(shape, target, o);
    SideWithin(shape.h, target.h, Scale(shape, target, o));
    SideWithin(shape.w, target.w, Scale(shape, target, o));
  }

  /** The gaps behind the two half-gaps of the parameters. */
  function Gap(target: int, unpad: int, o: Options): int
    requires o.auto ==> o.stride > 0
  {
    if o.auto then (target - unpad) % o.stride else target - unpad
  }

  lemma GapMod(target: int, unpad: int, stride: int)
    requires stride > 0 && 0 <= unpad <= target
    ensures
      var g := (target - unpad) % stride;
      0 <= g < stride && g <= target - unpad && (unpad + g) % stride == target % stride
  {
    var d := target - unpad;
    var q, g := d / stride, d % stride;
    assert d == q * stride + g;
    assert q >= 0;
    assert q * stride >= 0;
    SameResidue(unpad + g, q, stride);
    assert target == unpad + g + q * stride;
  }

  lemma SmallMultiple(k: int, d: int)
    requires d > 0 && -d < k * d < d
    ensures k == 0
  {
    assert k >= 1 ==> k * d >= d;
    assert k <= -1 ==> k * d <= -d;
  }

  lemma SameResidue(a: int, q: int, stride: int)
    requires stride > 0
    ensures (a + q * stride) % stride == a % stride
  {
    var b := a + q * stride;
    var k := b / stride - a / stride - q;
    assert a == (a / stride) * stride + a % stride && b == (b / stride) * stride + b % stride;
    assert k * stride == a % stride - b % stride;
    SmallMultiple(k, stride);
  }

  lemma Gaps(shape: Size, target: Size, o: Options)
    requires Proper(shape) && Proper(target) && (o.auto ==> o.stride > 0)
    ensures var p := ComputeParams(shape, target, o);
      var b := Boxed(p, Padding(Round(p.dh - 0.1), Round(p.dh + 0.1), Round(p.dw - 0.1), Round(p.dw + 0.1)));
      Centred(b.padding) && (!o.auto ==> Padded(b) == target) && (o.auto ==> PaddedToStride(b, target, o.stride))
  {
    hide Round, Resized, Scale, TooThin;
    var p := ComputeParams(shape, target, o);
    UnpadWithin(shape, target, o);
    var gh, gw := Gap(target.h, p.unpad.h, o), Gap(target.w, p.unpad.w, o);
    assert p.dh == gh as real / 2.0 && p.dw == gw as real / 2.0;
    SplitGap(gh);
    SplitGap(gw);
    if o.auto {
      GapMod(target.h, p.unpad.h, o.stride);
      GapMod(target.w, p.unpad.w, o.stride);
    }
  }

  // ---------- mapping back ----------

  /** Where a coordinate of the original image ends up along one axis. */
  function Place(x: real, side: int, unpad: int, pad: int): real
    requires side > 0
  {
    x * (unpad as real / side as real) + pad as real
  }

  /** What decoding makes of a coordinate along one axis. */
  function Unplace(x: real, ratio: real, half: real): real
    requires ratio != 0.0
  {
    (x - half) / ratio
  }

  lemma Fraction(t: real, e: real)
    requires 0.0 <= t <= 1.0 && -0.5 <= e <= 0.5
    ensures -0.5 <= t * e <= 0.5
  {
    assert t * (0.5 - e) >= 0.0 && t * (e + 0.5) >= 0.0;
  }

  lemma ScaleError(x: real, side: int, unpad: int, r: real)
    requires side > 0 && 0.0 <= x <= side as real
    requires -0.5 <= unpad as real - side as real * r <= 0.5
    ensures -0.5 <= x * (unpad as real / side as real) - x * r <= 0.5
  {
    var s, u := side as real, unpad as real;
    var t, q := x / s, u / s;
    assert 0.0 <= t <= 1.0;
    Fraction(t, u - s * r);
    assert x == t * s && s * q == u;
    Factor(t, s, q, r);
  }

  lemma Factor(t: real, s: real, q: real, r: real)
    ensures (t * s) * q - (t * s) * r == t * (s * q - s * r)
  {
  }

  lemma DivideBounds(a: real, b: real, r: real)
    requires r > 0.0 && -1.0 <= a - b * r <= 1.0
    ensures -1.0 / r <= a / r - b <= 1.0 / r
  {
    assert b * r / r == b;
    assert a / r - b == (a - b * r) / r;
  }

  /** Decoding a coordinate mapped through the rounded resize and the rounded border misses it by at most
      one pixel of the letterboxed image. */
  lemma AxisRoundTrip(x: real, side: int, r: real, gap: int)
    requires side > 0 && r > 0.0 && 0.0 <= x <= side as real
    ensures
      var placed := Place(x, side, Resized(side, r), Round(gap as real / 2.0 - 0.1));
      -1.0 / r <= Unplace(placed, r, gap as real / 2.0) - x <= 1.0 / r
  {
    hide Round;
    var u, pad := Resized(side, r), Round(gap as real / 2.0 - 0.1);
    RoundNear(side as real * r);
    ScaleError(x, side, u, r);
    SplitGap(gap);
    var scaled, half := x * (u as real / side as real), gap as real / 2.0;
    assert -0.5 <= pad as real - half <= 0.0;
    assert Place(x, side, u, pad) == scaled + pad as real;
    DivideBounds(scaled + pad as real - half, x, r);
  }

  /** A stretched image comes back exactly. */
  lemma StretchedRoundTrip(x: real, side: int, target: int)
    requires side > 0 && target > 0
    ensures Unplace(Place(x, side, target, 0), target as real / side as real, 0.0) == x
  {
    var q := target as real / side as real;
    assert q > 0.0;
    assert x * q / q == x;
  }

  // ---------- detections ----------

  /** A box of the original image, and a prediction in centre form with one score per class. */
  datatype Corners = Corners(x1: real, y1: real, x2: real, y2: real)

  datatype Prediction = Prediction(cx: real, cy: real, w: real, h: real, scores: seq<real>)

  datatype Detection = Detection(corners: Corners, score: real, cls: nat)

  function DecodeBox(p: Prediction, params: Params): Corners
    requires params.ratioW != 0.0 && params.ratioH != 0.0
  {
    var bw, bh := p.w / 2.0, p.h / 2.0;
    Corners(
      (p.cx - bw - params.dw) / params.ratioW,
      (p.cy - bh - params.dh) / params.ratioH,
      (p.cx + bw - params.dw) / params.ratioW,
      (p.cy + bh - params.dh) / params.ratioH)
  }

  /** The prediction an ideal model makes for a box: its letterboxed corners in centre form. */
  function PredictionOf(box: Corners, shape: Size, b: Boxed): Prediction
    requires Proper(shape)
  {
    var u, left, top := b.params.unpad, b.padding.left, b.padding.top;
    var x1, x2 := Place(box.x1, shape.w, u.w, left), Place(box.x2, shape.w, u.w, left);
    var y1, y2 := Place(box.y1, shape.h, u.h, top), Place(box.y2, shape.h, u.h, top);
    Prediction((x1 + x2) / 2.0, (y1 + y2) / 2.0, x2 - x1, y2 - y1, [])
  }

  predicate Near(a: real, b: real, tolerance: real) {
    -tolerance <= a - b <= tolerance
  }

  predicate Within(x: real, side: int) {
    0.0 <= x <= side as real
  }

  /** Letterbox, predict, decode: every corner comes back within one letterboxed pixel, and exactly when
      the image was stretched. */
  lemma BoxRoundTrip(box: Corners, shape: Size, target: Size, o: Options, b: Boxed)
    requires Proper(shape) && Proper(target) && (o.auto ==> o.stride > 0)
    requires Within(box.x1, shape.w) && Within(box.x2, shape.w) && Within(box.y1, shape.h) && Within(box.y2, shape.h)
    requires b.params == ComputeParams(shape, target, o)
    requires b.padding.top == Round(b.params.dh - 0.1) && b.padding.left == Round(b.params.dw - 0.1)
    ensures b.params.ratioW > 0.0 && b.params.ratioH > 0.0
    ensures var back := DecodeBox(PredictionOf(box, shape, b), b.params); var tol := 1.0 / Scale(shape, target, o);
      if Stretches(o) then back == box
      else
        && Near(back.x1, box.x1, tol) && Near(back.x2, box.x2, tol)
        && Near(back.y1, box.y1, tol) && Near(back.y2, box.y2, tol)
  {
    hide Round, Place, Scale, Resized, Unplace, PredictionOf, DecodeBox;
    var p, r := b.params, Scale(shape, target, o);
    RatiosPositive(shape, target, o);
    DecodedCorners(box, shape, b);
    if Stretches(o) {
      SplitGap(0);
      StretchedRoundTrip(box.x1, shape.w, target.w);
      StretchedRoundTrip(box.x2, shape.w, target.w);
      StretchedRoundTrip(box.y1, shape.h, target.h);
      StretchedRoundTrip(box.y2, shape.h, target.h);
    } else {
      var gh, gw := Gap(target.h, p.unpad.h, o), Gap(target.w, p.unpad.w, o);
      AxisRoundTrip(box.x1, shape.w, r, gw);
      AxisRoundTrip(box.x2, shape.w, r, gw);
      AxisRoundTrip(box.y1, shape.h, r, gh);
      AxisRoundTrip(box.y2, shape.h, r, gh);
    }
  }

  lemma RatiosPositive(shape: Size, target: Size, o: Options)
    requires Proper(shape) && Proper(target) && (o.auto ==> o.stride > 0)
    ensures ComputeParams(shape, target, o).ratioW > 0.0 && ComputeParams(shape, target, o).ratioH > 0.0
  {
    hide Scale;
  }

  /** Centre form and back: decoding undoes border and scale corner by corner. */
  lemma DecodedCorners(box: Corners, shape: Size, b: Boxed)
    requires Proper(shape) && b.params.ratioW > 0.0 && b.params.ratioH > 0.0
    ensures var p := b.params;
      DecodeBox(PredictionOf(box, shape, b), p) == Corners(
        Unplace(Place(box.x1, shape.w, p.unpad.w, b.padding.left), p.ratioW, p.dw),
        Unplace(Place(box.y1, shape.h, p.unpad.h, b.padding.top), p.ratioH, p.dh),
        Unplace(Place(box.x2, shape.w, p.unpad.w, b.padding.left), p.ratioW, p.dw),
        Unplace(Place(box.y2, shape.h, p.unpad.h, b.padding.top), p.ratioH, p.dh))
  {
    hide Place;
    var p := b.params;
    CentreForm(Place(box.x1, shape.w, p.unpad.w, b.padding.left), Place(box.x2, shape.w, p.unpad.w, b.padding.left));
    CentreForm(Place(box.y1, shape.h, p.unpad.h, b.padding.top), Place(box.y2, shape.h, p.unpad.h, b.padding.top));
  }

  lemma CentreForm(a: real, b: real)
    ensures (a + b) / 2.0 - (b - a) / 2.0 == a && (a + b) / 2.0 + (b - a) / 2.0 == b
  {
  }

  predicate Uniform(predictions: seq<Prediction>, classes: nat) {
    forall i :: 0 <= i < |predictions| ==> |predictions[i].scores| == classes
  }

  predicate FromPrediction(p: Prediction, conf: real, params: Params, d: Detection)
    requires d.cls < |p.scores| && params.ratioW != 0.0 && params.ratioH != 0.0
  {
    p.scores[d.cls] >= conf && d == Detection(DecodeBox(p, params), p.scores[d.cls], d.cls)
  }

  predicate IsHit(predictions: seq<Prediction>, classes: nat, conf: real, params: Params, d: Detection)
    requires Uniform(predictions, classes) && params.ratioW != 0.0 && params.ratioH != 0.0
  {
    d.cls < classes && exists i :: 0 <= i < |predictions| && FromPrediction(predictions[i], conf, params, d)
  }

  /** How many of the first `n` predictions are confident in class `c`, and how many pairs there are. */
  function ClassHits(predictions: seq<Prediction>, c: nat, conf: real, n: nat): nat
    requires n <= |predictions| && forall i :: 0 <= i < |predictions| ==> c < |predictions[i].scores|
  {
    if n == 0 then 0
    else ClassHits(predictions, c, conf, n - 1) + (if predictions[n - 1].scores[c] >= conf then 1 else 0)
  }

  function Hits(predictions: seq<Prediction>, classes: nat, conf: real): nat
    requires forall i :: 0 <= i < |predictions| ==> classes <= |predictions[i].scores|
  {
    if classes == 0 then 0
    else Hits(predictions, classes - 1, conf) + ClassHits(predictions, classes - 1, conf, |predictions|)
  }

  /** The confident predictions of one class. */
  method DecodeClass(predictions: seq<Prediction>, classes: nat, c: nat, conf: real, params: Params)
    returns (dets: seq<Detection>)
    requires Uniform(predictions, classes) && c < classes && params.ratioW != 0.0 && params.ratioH != 0.0
    ensures forall d :: d in dets ==> IsHit(predictions, classes, conf, params, d) && d.cls == c
    ensures forall i :: 0 <= i < |predictions| && predictions[i].scores[c] >= conf ==>
      Detection(DecodeBox(predictions[i], params), predictions[i].scores[c], c) in dets
    ensures |dets| == ClassHits(predictions, c, conf, |predictions|)
  {
    hide DecodeBox;
    dets := [];
    for i := 0 to |predictions|
      invariant forall d :: d in dets ==> IsHit(predictions, classes, conf, params, d) && d.cls == c
      invariant forall k :: 0 <= k < i && predictions[k].scores[c] >= conf ==>
        Detection(DecodeBox(predictions[k], params), predictions[k].scores[c], c) in dets
      invariant |dets| == ClassHits(predictions, c, conf, i)
    {
      if predictions[i].scores[c] >= conf {
        var det := Detection(DecodeBox(predictions[i], params), predictions[i].scores[c], c);
        assert FromPrediction(predictions[i], conf, params, det);
        dets := dets + [det];
      }
    }
  }

  /** Every sufficiently confident class of every prediction, class by class, and nothing else. */
  method DecodeOutput(predictions: seq<Prediction>, classes: nat, conf: real, params: Params)
    returns (dets: seq<Detection>)
    requires Uniform(predictions, classes) && params.ratioW != 0.0 && params.ratioH != 0.0
    ensures forall d :: d in dets ==> IsHit(predictions, classes, conf, params, d)
    ensures forall i, c :: 0 <= i < |predictions| && 0 <= c < classes && predictions[i].scores[c] >= conf ==>
      Detection(DecodeBox(predictions[i], params), predictions[i].scores[c], c) in dets
    ensures |dets| == Hits(predictions, classes, conf)
    ensures forall i, j :: 0 <= i < j < |dets| ==> dets[i].cls <= dets[j].cls
  {
    hide DecodeBox, IsHit, ClassHits;
    dets := [];
    for c := 0 to classes
      invariant forall d :: d in dets ==> IsHit(predictions, classes, conf, params, d) && d.cls < c
      invariant forall i, k :: 0 <= i < |predictions| && 0 <= k < c && predictions[i].scores[k] >= conf ==>
        Detection(DecodeBox(predictions[i], params), predictions[i].scores[k], k) in dets
      invariant |dets| == Hits(predictions, c, conf)
      invariant forall i, j :: 0 <= i < j < |dets| ==> dets[i].cls <= dets[j].cls
    {
      var more := DecodeClass(predictions, classes, c, conf, params);
      assert forall i :: 0 <= i < |dets| ==> dets[i] in dets;
      assert forall i :: 0 <= i < |more| ==> more[i] in more;
      dets := dets + more;
    }
  }
}
