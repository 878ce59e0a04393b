/** Adaptive echo cancellation by normalised least mean squares, in exact arithmetic. */
module Nlms {
  import opened Wrappers

  // ---------- vectors ----------

  function Dot(a: seq<real>, b: seq<real>): real
    requires |a| == |b|
  {
    if a == [] then 0.0 else a[0] * b[0] + Dot(a[1..], b[1..])
  }

  /** `a + f * b`. */
  function AddScaled(a: seq<real>, f: real, b: seq<real>): (r: seq<real>)
    requires |a| == |b|
    ensures |r| == |a|
  {
    seq(|a|, i requires 0 <= i < |a| => a[i] + f * b[i])
  }

  function Minus(a: seq<real>, b: seq<real>): (r: seq<real>)
    requires |a| == |b|
    ensures |r| == |a|
  {
    AddScaled(a, -1.0, b)
  }

  function Norm2(a: seq<real>): real {
    Dot(a, a)
  }

  lemma {:induction false} DotAddScaled(a: seq<real>, f: real, b: seq<real>, c: seq<real>)
    requires |a| == |b| == |c|
    ensures Dot(AddScaled(a, f, b), c) == Dot(a, c) + f * Dot(b, c)
  {
    if a != [] {
      var s, rest := AddScaled(a, f, b), AddScaled(a[1..], f, b[1..]);
      forall i | 0 <= i < |rest| ensures s[1..][i] == rest[i] { assert s[i + 1] == a[i + 1] + f * b[i + 1]; }
      assert s[1..] == rest;
      DotAddScaled(a[1..], f, b[1..], c[1..]);
      var p, q := a[0], b[0];
      assert (p + f * q) * c[0] == p * c[0] + f * (q * c[0]);
    }
  }

  lemma {:induction false} DotSymmetric(a: seq<real>, b: seq<real>)
    requires |a| == |b|
    ensures Dot(a, b) == Dot(b, a)
  {
    if a != [] { DotSymmetric(a[1..], b[1..]); }
  }

  lemma {:induction false} Norm2NonNegative(a: seq<real>)
    ensures Norm2(a) >= 0.0
  {
    if a != [] {
      Norm2NonNegative(a[1..]);
      assert a[0] * a[0] >= 0.0;
    }
  }

  lemma DotMinus(a: seq<real>, b: seq<real>, c: seq<real>)
    requires |a| == |b| == |c|
    ensures Dot(Minus(a, b), c) == Dot(a, c) - Dot(b, c)
  {
    hide Dot, AddScaled, Minus;
    DotAddScaled(a, -1.0, b, c);
    MinusIs(a, b);
    assert Dot(Minus(a, b), c) == Dot(a, c) + -1.0 * Dot(b, c);
  }

  lemma MinusIs(a: seq<real>, b: seq<real>)
    requires |a| == |b|
    ensures Minus(a, b) == AddScaled(a, -1.0, b)
  {
  }

  lemma Norm2AddScaled(v: seq<real>, f: real, x: seq<real>)
    requires |v| == |x|
    ensures Norm2(AddScaled(v, f, x)) == Norm2(v) + 2.0 * f * Dot(v, x) + f * f * Norm2(x)
  {
    hide Dot, AddScaled;
    var u := AddScaled(v, f, x);
    DotAddScaled(v, f, x, u);
    DotSymmetric(v, u);
    DotSymmetric(x, u);
    DotAddScaled(v, f, x, v);
    DotAddScaled(v, f, x, x);
    DotSymmetric(x, v);
    Expand(Norm2(v), f, Dot(v, x), Norm2(x));
  }

  lemma Expand(vv: real, f: real, d: real, n: real)
    ensures (vv + f * d) + f * (d + f * n) == vv + 2.0 * f * d + f * f * n
  {
  }

  // ---------- one sample ----------

  datatype Params = Params(step: real, epsilon: real)

  /** The reference samples for `mic[i]`, most recent first. */
  function Window(refs: seq<real>, i: nat, taps: nat): (x: seq<real>)
    requires i + taps <= |refs|
    ensures |x| == taps
  {
    seq(taps, k requires 0 <= k < taps => refs[i + taps - 1 - k])
  }

  /** What a room with response `h` makes of what was played: tap `k` weighs the sample played `k` earlier. */
  function Echo(h: seq<real>, refs: seq<real>, i: nat, n: nat): real
    requires n <= |h| && i + |h| <= |refs|
  {
    if n == 0 then 0.0 else Echo(h, refs, i, n - 1) + h[n - 1] * refs[i + |h| - n]
  }

  lemma {:induction false} DotSnoc(a: seq<real>, b: seq<real>, x: real, y: real)
    requires |a| == |b|
    ensures Dot(a + [x], b + [y]) == Dot(a, b) + x * y
  {
    if a == [] {
      assert [x][1..] == [] && [y][1..] == [];
    } else {
      DotSnoc(a[1..], b[1..], x, y);
      assert (a + [x])[1..] == a[1..] + [x] && (b + [y])[1..] == b[1..] + [y];
    }
  }

  lemma {:induction false} EchoOfTaps(h: seq<real>, refs: seq<real>, i: nat, n: nat)
    requires n <= |h| && i + |h| <= |refs|
    ensures Dot(h[..n], Window(refs, i, |h|)[..n]) == Echo(h, refs, i, n)
  {
    if n > 0 {
      EchoOfTaps(h, refs, i, n - 1);
      var x := Window(refs, i, |h|);
      assert h[..n] == h[..n - 1] + [h[n - 1]] && x[..n] == x[..n - 1] + [x[n - 1]];
      DotSnoc(h[..n - 1], x[..n - 1], h[n - 1], x[n - 1]);
    }
  }

  /** The update of one sample is the error, times the step, over the energy of the window and `epsilon`. */
  lemma RateExactly(p: Params, x: seq<real>, e: real)
    requires p.epsilon > 0.0
    ensures Rate(p, x, e) * (SquareSum(x) + p.epsilon) == p.step * e
  {
    hide Dot;
    Norm2NonNegative(x);
    Norm2IsSquareSum(x);
    QuotientTimes(p.step, e, Scale(p, x));
  }

  lemma QuotientTimes(step: real, e: real, n: real)
    requires n > 0.0
    ensures (step / n * e) * n == step * e
  {
    var q := step / n;
    assert q * n == step;
    assert (q * e) * n == (q * n) * e;
  }

  /** The filter's prediction is the echo its weights would make. */
  lemma PredictionIsEcho(h: seq<real>, refs: seq<real>, i: nat)
    requires i + |h| <= |refs|
    ensures Dot(h, Window(refs, i, |h|)) == Echo(h, refs, i, |h|)
  {
    EchoOfTaps(h, refs, i, |h|);
    assert h[..|h|] == h && Window(refs, i, |h|)[..|h|] == Window(refs, i, |h|);
  }

  function Scale(p: Params, x: seq<real>): real {
    Norm2(x) + p.epsilon
  }

  /** The normalised step times the error. */
  function Rate(p: Params, x: seq<real>, e: real): real
    requires p.epsilon > 0.0
  {
    Norm2NonNegative(x);
    p.step / Scale(p, x) * e
  }

  /** The update of one sample with error `e`. */
  function Adapt(p: Params, w: seq<real>, x: seq<real>, e: real): (r: seq<real>)
    requires |w| == |x| && p.epsilon > 0.0
    ensures |r| == |w|
  {
    AddScaled(w, Rate(p, x, e), x)
  }

  /** What one sample is worth in the energy balance. */
  function Gain(p: Params, x: seq<real>, e: real): real
    requires p.epsilon > 0.0
  {
    Norm2NonNegative(x);
    p.step * (2.0 - p.step) * e * e / Scale(p, x)
  }

  // ---------- one block ----------

  datatype Block = Block(weights: seq<real>, out: seq<real>)

  /** The filter over the first `n` samples of a block. */
  function Filter(p: Params, mic: seq<real>, refs: seq<real>, w: seq<real>, n: nat): (r: Block)
    requires p.epsilon > 0.0 && n <= |mic| && |refs| == |w| + |mic|
    ensures |r.weights| == |w| && |r.out| == n
  {
    if n == 0 then Block(w, []) else
    var before := Filter(p, mic, refs, w, n - 1);
    var x := Window(refs, n - 1, |w|);
    var e := mic[n - 1] - Dot(before.weights, x);
    Block(Adapt(p, before.weights, x, e), before.out + [e])
  }

  /** Sum of the gains over the first `n` samples. */
  function Gains(p: Params, mic: seq<real>, refs: seq<real>, w: seq<real>, n: nat): real
    requires p.epsilon > 0.0 && n <= |mic| && |refs| == |w| + |mic|
  {
    if n == 0 then 0.0
    else Gains(p, mic, refs, w, n - 1) + Gain(p, Window(refs, n - 1, |w|), Filter(p, mic, refs, w, n).out[n - 1])
  }

  /** `weights += f * x`. */
  method AddInPlace(weights: array<real>, f: real, x: seq<real>)
    requires |x| == weights.Length
    modifies weights
    ensures weights[..] == AddScaled(old(weights[..]), f, x)
  {
    for k := 0 to weights.Length
      invariant forall j :: 0 <= j < k ==> weights[j] == old(weights[j]) + f * x[j]
      invariant forall j :: k <= j < weights.Length ==> weights[j] == old(weights[j])
    {
      weights[k] := weights[k] + f * x[k];
    }
    ghost var sum := AddScaled(old(weights[..]), f, x);
    assert forall j :: 0 <= j < |sum| ==> sum[j] == old(weights[j]) + f * x[j];
    assert weights[..] == sum;
  }

  /** The block loop, in place on the weights. */
  method NlmsProcess(mic: seq<real>, refs: seq<real>, weights: array<real>, p: Params) returns (out: seq<real>)
    requires p.epsilon > 0.0 && |refs| == weights.Length + |mic|
    modifies weights
    ensures Block(weights[..], out) == Filter(p, mic, refs, old(weights[..]), |mic|)
  {
    hide Dot, AddScaled, Window;
    out := [];
    ghost var w0 := weights[..];
    for i := 0 to |mic|
      invariant Block(weights[..], out) == Filter(p, mic, refs, w0, i)
    {
      var x := Window(refs, i, weights.Length);
      var y := Dot(weights[..], x);
      var e := mic[i] - y;
      ghost var before := weights[..];
      Norm2NonNegative(x);
      var norm := Dot(x, x) + p.epsilon;
      var f := p.step / norm * e;
      AddInPlace(weights, f, x);
      assert f == Rate(p, x, e);
      assert weights[..] == Adapt(p, before, x, e);
      assert Filter(p, mic, refs, w0, i + 1) == Block(Adapt(p, before, x, e), out + [e]);
      out := out + [e];
    }
  }

  // ---------- the energy balance ----------

  lemma GainArithmetic(mu: real, e: real, n: real, big: real)
    requires 0.0 <= n < big
    ensures
      var f := mu / big * e;
      2.0 * f * (-e) + f * f * n <= -(mu * (2.0 - mu) * e * e / big)
  {
    var f := mu / big * e;
    var g := mu * e;
    assert f == g / big;
    assert 2.0 * f * (-e) == -(2.0 * mu * e * e / big);
    assert f * f * n <= f * f * big by { assert f * f >= 0.0; }
    assert f * f * big == g * g / big;
    assert mu * (2.0 - mu) * e * e / big == (2.0 * mu * e * e) / big - (g * g) / big;
  }

  /** Shifting by the target and adding a multiple commute. */
  lemma MinusAddScaled(w: seq<real>, f: real, x: seq<real>, t: seq<real>)
    requires |w| == |x| == |t|
    ensures Minus(AddScaled(w, f, x), t) == AddScaled(Minus(w, t), f, x)
  {
    var l, r := Minus(AddScaled(w, f, x), t), AddScaled(Minus(w, t), f, x);
    forall i | 0 <= i < |w| ensures l[i] == r[i] {
      assert AddScaled(w, f, x)[i] == w[i] + f * x[i];
      assert Minus(w, t)[i] == w[i] + -1.0 * t[i];
    }
    assert l == r;
  }

  /** One sample whose mic signal is exactly the echo: the weight error shrinks by at least the gain. */
  lemma SampleBalance(p: Params, w: seq<real>, target: seq<real>, x: seq<real>)
    requires |w| == |target| == |x| && p.epsilon > 0.0
    ensures
      var e := Dot(target, x) - Dot(w, x);
      Norm2(Minus(Adapt(p, w, x, e), target)) + Gain(p, x, e) <= Norm2(Minus(w, target))
  {
    hide Dot, AddScaled, Minus;
    var e := Dot(target, x) - Dot(w, x);
    Norm2NonNegative(x);
    var v := Minus(w, target);
    var f := Rate(p, x, e);
    DotMinus(w, target, x);
    MinusAddScaled(w, f, x, target);
    Norm2AddScaled(v, f, x);
    assert Norm2(Minus(Adapt(p, w, x, e), target)) == Norm2(v) + 2.0 * f * (-e) + f * f * Norm2(x);
    GainArithmetic(p.step, e, Norm2(x), Scale(p, x));
  }

  /** The microphone hears nothing but the echo through the room `target`. */
  predicate PureEcho(mic: seq<real>, refs: seq<real>, target: seq<real>)
    requires |refs| == |target| + |mic|
  {
    forall i :: 0 <= i < |mic| ==> mic[i] == Dot(target, Window(refs, i, |target|))
  }

  lemma {:induction false} BlockBalance(p: Params, mic: seq<real>, refs: seq<real>, w: seq<real>, target: seq<real>,
                                        n: nat)
    requires p.epsilon > 0.0 && n <= |mic| && |refs| == |w| + |mic| && |target| == |w|
    requires PureEcho(mic, refs, target)
    ensures Norm2(Minus(Filter(p, mic, refs, w, n).weights, target)) + Gains(p, mic, refs, w, n)
         <= Norm2(Minus(w, target))
  {
    if n > 0 {
      BlockBalance(p, mic, refs, w, target, n - 1);
      var before := Filter(p, mic, refs, w, n - 1);
      SampleBalance(p, before.weights, target, Window(refs, n - 1, |w|));
    }
  }

  // ---------- the canceller ----------

  /** Mean of squares; root-mean-square values are compared through their squares. */
  function Power(s: seq<real>): real
    requires s != []
  {
    Norm2(s) / |s| as real
  }

  /** `sqrt(a) > c` for `a >= 0`. */
  predicate RootExceeds(a: real, c: real) {
    c < 0.0 || a > c * c
  }

  /** `sqrt(a) > r * sqrt(b)` for `a, b >= 0`. */
  predicate RootExceedsScaled(a: real, r: real, b: real) {
    if r < 0.0 then a > 0.0 || b > 0.0 else a > r * r * b
  }

  datatype Canceller = Canceller(taps: nat, step: real, epsilon: real, ratio: real, floor: real)

  /** What the current weights predict for the whole block. */
  function Prediction(refs: seq<real>, w: seq<real>, n: nat): (y: seq<real>)
    requires n + |w| <= |refs|
    ensures |y| == n
  {
    seq(n, i requires 0 <= i < n => Dot(w, Window(refs, i, |w|)))
  }

  predicate AnyNonZero(w: seq<real>) {
    exists i :: 0 <= i < |w| && w[i] != 0.0
  }

  lemma AnyNonZeroSnoc(w: seq<real>, x: real)
    ensures AnyNonZero(w + [x]) <==> AnyNonZero(w) || x != 0.0
  {
    var more := w + [x];
    if AnyNonZero(w) {
      var i :| 0 <= i < |w| && w[i] != 0.0;
      assert more[i] != 0.0;
    }
    assert more[|w|] == x;
  }

  /** Double talk: the filter has something to lose and the residual drowns its prediction. */
  predicate Frozen(c: Canceller, mic: seq<real>, refs: seq<real>, w: seq<real>)
    requires |refs| == |w| + |mic|
  {
    && AnyNonZero(w) && mic != []
    && var y := Prediction(refs, w, |mic|);
       && RootExceeds(Power(y), c.floor)
       && RootExceedsScaled(Power(Minus(mic, y)), c.ratio, Power(y))
  }

  function EffectiveStep(c: Canceller, mic: seq<real>, refs: seq<real>, w: seq<real>): real
    requires |refs| == |w| + |mic|
  {
    if Frozen(c, mic, refs, w) then 0.0 else c.step
  }

  function SquareSum(s: seq<real>): real {
    if s == [] then 0.0 else SquareSum(s[..|s| - 1]) + s[|s| - 1] * s[|s| - 1]
  }

  lemma {:induction false} Norm2IsSquareSum(s: seq<real>)
    ensures Norm2(s) == SquareSum(s)
  {
    if s != [] {
      var n := |s| - 1;
      Norm2IsSquareSum(s[..n]);
      assert s == s[..n] + [s[n]];
      DotSnoc(s[..n], s[..n], s[n], s[n]);
    }
  }

  /** `rms` is the root-mean-square value of `s`. */
  predicate IsRms(s: seq<real>, rms: real) {
    s != [] && rms >= 0.0 && rms * rms * |s| as real == SquareSum(s)
  }

  lemma PowerIsSquare(s: seq<real>, rms: real)
    requires IsRms(s, rms)
    ensures Power(s) == rms * rms
  {
    Norm2IsSquareSum(s);
    assert (rms * rms * |s| as real) / |s| as real == rms * rms;
  }

  lemma ProductPositive(a: real, b: real)
    requires a > 0.0 && b > 0.0
    ensures a * b > 0.0
  {
  }

  lemma SquaresCompare(a: real, b: real)
    requires a >= 0.0 && b >= 0.0
    ensures a * a > b * b <==> a > b
  {
    assert a * a - b * b == (a - b) * (a + b);
    if a > b { ProductPositive(a - b, a + b); } else { assert (b - a) * (a + b) >= 0.0; }
  }

  lemma RootExceedsExactly(a: real, c: real)
    requires a >= 0.0
    ensures RootExceeds(a * a, c) <==> a > c
  {
    if c >= 0.0 { SquaresCompare(a, c); }
  }

  lemma RootExceedsScaledExactly(a: real, r: real, b: real)
    requires a >= 0.0 && b >= 0.0
    ensures RootExceedsScaled(a * a, r, b * b) <==> a > r * b
  {
    if r >= 0.0 {
      assert r * b >= 0.0;
      assert r * r * (b * b) == (r * b) * (r * b);
      SquaresCompare(a, r * b);
    } else {
      if b > 0.0 { assert r * b < 0.0; assert b * b > 0.0; } else { assert r * b == 0.0; }
      if a > 0.0 { assert a * a > 0.0; } else { assert a * a == 0.0; }
    }
  }

  /** Adaptation stops for a block exactly when some weight is not zero and, in root-mean-square values, the
      prediction is above the floor and what it leaves of the microphone signal is more than `ratio` times the
      prediction. */
  lemma FrozenExactly(c: Canceller, mic: seq<real>, refs: seq<real>, w: seq<real>, predicted: real, residual: real)
    requires |refs| == |w| + |mic| && mic != []
    requires IsRms(Prediction(refs, w, |mic|), predicted)
    requires IsRms(Minus(mic, Prediction(refs, w, |mic|)), residual)
    ensures Frozen(c, mic, refs, w) <==>
      (exists i :: 0 <= i < |w| && w[i] != 0.0) && predicted > c.floor && residual > c.ratio * predicted
  {
    hide Power, RootExceeds, RootExceedsScaled, Prediction, IsRms;
    var y := Prediction(refs, w, |mic|);
    PowerIsSquare(y, predicted);
    PowerIsSquare(Minus(mic, y), residual);
    RmsNonNegative(y, predicted);
    RmsNonNegative(Minus(mic, y), residual);
    RootExceedsExactly(predicted, c.floor);
    RootExceedsScaledExactly(residual, c.ratio, predicted);
  }

  lemma RmsNonNegative(s: seq<real>, rms: real)
    requires IsRms(s, rms)
    ensures rms >= 0.0
  {
  }

  /** A filter that has converged to the room leaves nothing of a pure echo, stays as it is, and is never
      frozen. */
  lemma {:induction false} ConvergedIsSilent(p: Params, mic: seq<real>, refs: seq<real>, w: seq<real>, n: nat)
    requires p.epsilon > 0.0 && n <= |mic| && |refs| == |w| + |mic|
    requires forall i :: 0 <= i < |mic| ==> mic[i] == Echo(w, refs, i, |w|)
    ensures Filter(p, mic, refs, w, n).weights == w
    ensures forall i :: 0 <= i < n ==> Filter(p, mic, refs, w, n).out[i] == 0.0
  {
    if n > 0 {
      ConvergedIsSilent(p, mic, refs, w, n - 1);
      PredictionIsEcho(w, refs, n - 1);
      var x := Window(refs, n - 1, |w|);
      ZeroErrorRate(p, x);
      assert Adapt(p, w, x, 0.0) == w;
    }
  }

  lemma ZeroErrorRate(p: Params, x: seq<real>)
    requires p.epsilon > 0.0
    ensures Rate(p, x, 0.0) == 0.0
  {
  }

  lemma {:induction false} ZeroSquares(s: seq<real>)
    requires forall i :: 0 <= i < |s| ==> s[i] == 0.0
    ensures SquareSum(s) == 0.0
  {
    if s != [] { ZeroSquares(s[..|s| - 1]); }
  }

  lemma ConvergedIsNeverFrozen(c: Canceller, mic: seq<real>, refs: seq<real>, w: seq<real>)
    requires c.ratio >= 0.0 && |refs| == |w| + |mic|
    requires forall i :: 0 <= i < |mic| ==> mic[i] == Echo(w, refs, i, |w|)
    ensures !Frozen(c, mic, refs, w)
  {
    hide Echo, Dot, Window, Prediction, Power, RootExceeds, RootExceedsScaled;
    if mic != [] {
      var y := Prediction(refs, w, |mic|);
      NothingLeft(mic, refs, w);
      PowerNonNegative(y);
      NothingExceeds(c.ratio, Power(y));
    }
  }

  lemma NothingLeft(mic: seq<real>, refs: seq<real>, w: seq<real>)
    requires |refs| == |w| + |mic| && mic != []
    requires forall i :: 0 <= i < |mic| ==> mic[i] == Echo(w, refs, i, |w|)
    ensures Power(Minus(mic, Prediction(refs, w, |mic|))) == 0.0
  {
    hide Echo, Dot, Window, Power, Minus;
    var y := Prediction(refs, w, |mic|);
    forall i | 0 <= i < |mic| ensures Minus(mic, y)[i] == 0.0 {
      PredictionIsEcho(w, refs, i);
      NoDifference(mic, y, i);
    }
    ZeroPower(Minus(mic, y));
  }

  lemma NoDifference(a: seq<real>, b: seq<real>, i: nat)
    requires |a| == |b| && i < |a| && a[i] == b[i]
    ensures Minus(a, b)[i] == 0.0
  {
  }

  lemma ZeroPower(s: seq<real>)
    requires s != [] && forall i :: 0 <= i < |s| ==> s[i] == 0.0
    ensures Power(s) == 0.0
  {
    hide Dot, SquareSum;
    ZeroSquares(s);
    Norm2IsSquareSum(s);
  }

  lemma PowerNonNegative(s: seq<real>)
    requires s != []
    ensures Power(s) >= 0.0
  {
    Norm2NonNegative(s);
  }

  lemma NothingExceeds(ratio: real, power: real)
    requires ratio >= 0.0 && power >= 0.0
    ensures !RootExceedsScaled(0.0, ratio, power)
  {
    assert ratio * ratio >= 0.0;
    assert ratio * ratio * power >= 0.0;
  }

  /** Sample by sample, what comes out is the microphone signal less the echo the weights of that moment
      predict, and the echo is subtracted before the weights adapt to it. */
  lemma {:induction false} OutIsResidual(p: Params, mic: seq<real>, refs: seq<real>, w: seq<real>, n: nat, i: nat)
    requires p.epsilon > 0.0 && i < n <= |mic| && |refs| == |w| + |mic|
    ensures Filter(p, mic, refs, w, n).out[i] == mic[i] - Echo(Filter(p, mic, refs, w, i).weights, refs, i, |w|)
  {
    if i == n - 1 {
      PredictionIsEcho(Filter(p, mic, refs, w, i).weights, refs, i);
    } else {
      OutIsResidual(p, mic, refs, w, n - 1, i);
    }
  }

  datatype LengthError = LengthError

  class AdaptiveEchoCanceller {
    const config: Canceller
    const weights: array<real>

    ghost predicate Valid()
      reads this
    {
      weights.Length == config.taps && config.epsilon > 0.0
    }

    constructor (config: Canceller)
      requires config.taps > 0 && config.epsilon > 0.0
      ensures Valid() && this.config == config && fresh(weights)
      ensures weights[..] == seq(config.taps, _ => 0.0)
    {
      this.config := config;
      weights := new real[config.taps](_ => 0.0);
    }

    method HasLearned() returns (b: bool)
      ensures b == AnyNonZero(weights[..])
    {
      b := false;
      for i := 0 to weights.Length
        invariant b == AnyNonZero(weights[..i])
      {
        assert weights[..i + 1] == weights[..i] + [weights[i]];
        AnyNonZeroSnoc(weights[..i], weights[i]);
        b := b || weights[i] != 0.0;
      }
      assert weights[..weights.Length] == weights[..];
    }

    /** `mic` with the estimated echo subtracted. */
    method Process(mic: seq<real>, refs: seq<real>) returns (r: Result<seq<real>, LengthError>)
      requires Valid()
      modifies weights
      ensures Valid()
      ensures r.Err? <==> |refs| != config.taps + |mic|
      ensures r.Err? ==> weights[..] == old(weights[..])
      ensures r.Ok? ==>
        var p := Params(EffectiveStep(config, mic, refs, old(weights[..])), config.epsilon);
        Block(weights[..], r.value) == Filter(p, mic, refs, old(weights[..]), |mic|)
      // A block is filtered with the configured step, unless it is frozen; then the filter stays as it is and
      // what it predicts is subtracted all the same.
      ensures r.Ok? && !Frozen(config, mic, refs, old(weights[..])) ==>
        Block(weights[..], r.value) == Filter(Params(config.step, config.epsilon), mic, refs, old(weights[..]), |mic|)
      ensures r.Ok? && Frozen(config, mic, refs, old(weights[..])) ==>
        weights[..] == old(weights[..]) && r.value == Minus(mic, Prediction(refs, old(weights[..]), |mic|))
    {
      ghost var w := weights[..];
      if |refs| != config.taps + |mic| {
        return Err(LengthError);
      }
      var step := config.step;
      var learned := HasLearned();
      if learned && mic != [] {
        var y := Prediction(refs, weights[..], |mic|);
        var predicted := Power(y);
        if RootExceeds(predicted, config.floor) {
          var residual := Power(Minus(mic, y));
          if RootExceedsScaled(residual, config.ratio, predicted) {
            step := 0.0;
          }
        }
      }
      var out := NlmsProcess(mic, refs, weights, Params(step, config.epsilon));
      if Frozen(config, mic, refs, w) { FrozenWhole(Params(step, config.epsilon), mic, refs, w); }
      r := Ok(out);
    }
  }

  // ---------- over any number of blocks ----------

  /** A mic block with its reference history. */
  datatype Input = Input(mic: seq<real>, refs: seq<real>)

  /** The step used for block `n`, and the weights after the first `n` blocks. */
  function Weights(c: Canceller, xs: seq<Input>, w: seq<real>, n: nat): (r: seq<real>)
    requires c.epsilon > 0.0 && n <= |xs| && forall i :: 0 <= i < |xs| ==> |xs[i].refs| == |w| + |xs[i].mic|
    ensures |r| == |w|
  {
    if n == 0 then w else
    var before := Weights(c, xs, w, n - 1);
    var x := xs[n - 1];
    Filter(Params(EffectiveStep(c, x.mic, x.refs, before), c.epsilon), x.mic, x.refs, before, |x.mic|).weights
  }

  function TotalGain(c: Canceller, xs: seq<Input>, w: seq<real>, n: nat): real
    requires c.epsilon > 0.0 && n <= |xs| && forall i :: 0 <= i < |xs| ==> |xs[i].refs| == |w| + |xs[i].mic|
  {
    if n == 0 then 0.0 else
    var before := Weights(c, xs, w, n - 1);
    var x := xs[n - 1];
    TotalGain(c, xs, w, n - 1)
      + Gains(Params(EffectiveStep(c, x.mic, x.refs, before), c.epsilon), x.mic, x.refs, before, |x.mic|)
  }

  /** The energy bound. If every block is pure echo through one room `target`, then whatever the blocks,
      the step size and the freezing decisions: the final squared weight error plus everything gained
      on the way is at most the initial squared weight error. */
  lemma {:induction false} EnergyBound(c: Canceller, xs: seq<Input>, w: seq<real>, target: seq<real>, n: nat)
    requires c.epsilon > 0.0 && n <= |xs| && |target| == |w|
    requires forall i :: 0 <= i < |xs| ==> |xs[i].refs| == |w| + |xs[i].mic| && PureEcho(xs[i].mic, xs[i].refs, target)
    ensures Norm2(Minus(Weights(c, xs, w, n), target)) + TotalGain(c, xs, w, n) <= Norm2(Minus(w, target))
  {
    if n > 0 {
      EnergyBound(c, xs, w, target, n - 1);
      var before, x := Weights(c, xs, w, n - 1), xs[n - 1];
      BlockBalance(Params(EffectiveStep(c, x.mic, x.refs, before), c.epsilon), x.mic, x.refs, before, target, |x.mic|);
    }
  }

  lemma ZeroRate(p: Params, x: seq<real>, e: real)
    requires p.epsilon > 0.0 && p.step == 0.0
    ensures Rate(p, x, e) == 0.0
  {
    Norm2NonNegative(x);
    var q := p.step / Scale(p, x);
    assert q == 0.0;
    assert q * e == 0.0;
  }

  /** A frozen block leaves the filter alone and still subtracts what the filter predicts. */
  lemma {:induction false} FrozenBlock(p: Params, mic: seq<real>, refs: seq<real>, w: seq<real>, n: nat)
    requires p.epsilon > 0.0 && p.step == 0.0 && n <= |mic| && |refs| == |w| + |mic|
    ensures Filter(p, mic, refs, w, n) == Block(w, Minus(mic, Prediction(refs, w, |mic|))[..n])
  {
    var cleaned := Minus(mic, Prediction(refs, w, |mic|));
    if n > 0 {
      FrozenBlock(p, mic, refs, w, n - 1);
      var x := Window(refs, n - 1, |w|);
      var e := mic[n - 1] - Dot(w, x);
      ZeroRate(p, x, e);
      assert Adapt(p, w, x, e) == w;
      assert cleaned[n - 1] == e;
      assert cleaned[..n] == cleaned[..n - 1] + [e];
    }
  }

  lemma FrozenWhole(p: Params, mic: seq<real>, refs: seq<real>, w: seq<real>)
    requires p.epsilon > 0.0 && p.step == 0.0 && |refs| == |w| + |mic|
    ensures Filter(p, mic, refs, w, |mic|) == Block(w, Minus(mic, Prediction(refs, w, |mic|)))
  {
    FrozenBlock(p, mic, refs, w, |mic|);
    var out := Minus(mic, Prediction(refs, w, |mic|));
    assert out[..|mic|] == out;
  }

  lemma ProductNonNegative(a: real, b: real)
    requires a >= 0.0 && b >= 0.0
    ensures a * b >= 0.0
  {
  }

  lemma GainNonNegative(p: Params, x: seq<real>, e: real)
    requires p.epsilon > 0.0 && 0.0 <= p.step <= 2.0
    ensures Gain(p, x, e) >= 0.0
  {
    Norm2NonNegative(x);
    ProductNonNegative(p.step, 2.0 - p.step);
    ProductNonNegative(p.step * (2.0 - p.step), e * e);
    assert p.step * (2.0 - p.step) * e * e == p.step * (2.0 - p.step) * (e * e);
  }

  lemma {:induction false} GainsNonNegative(p: Params, mic: seq<real>, refs: seq<real>, w: seq<real>, n: nat)
    requires p.epsilon > 0.0 && 0.0 <= p.step <= 2.0 && n <= |mic| && |refs| == |w| + |mic|
    ensures Gains(p, mic, refs, w, n) >= 0.0
  {
    if n > 0 {
      GainsNonNegative(p, mic, refs, w, n - 1);
      GainNonNegative(p, Window(refs, n - 1, |w|), Filter(p, mic, refs, w, n).out[n - 1]);
    }
  }

  lemma {:induction false} TotalGainGrows(c: Canceller, xs: seq<Input>, w: seq<real>, n: nat)
    requires c.epsilon > 0.0 && 0.0 <= c.step <= 2.0 && n <= |xs|
    requires forall i :: 0 <= i < |xs| ==> |xs[i].refs| == |w| + |xs[i].mic|
    ensures TotalGain(c, xs, w, n) >= 0.0
  {
    if n > 0 {
      TotalGainGrows(c, xs, w, n - 1);
      var before, x := Weights(c, xs, w, n - 1), xs[n - 1];
      GainsNonNegative(Params(EffectiveStep(c, x.mic, x.refs, before), c.epsilon), x.mic, x.refs, before, |x.mic|);
    }
  }

  /** With a step size between 0 and 2 the weight error never grows, whatever is played. */
  lemma WeightErrorNeverGrows(c: Canceller, xs: seq<Input>, w: seq<real>, target: seq<real>, n: nat)
    requires c.epsilon > 0.0 && 0.0 <= c.step <= 2.0 && n <= |xs| && |target| == |w|
    requires forall i :: 0 <= i < |xs| ==> |xs[i].refs| == |w| + |xs[i].mic| && PureEcho(xs[i].mic, xs[i].refs, target)
    ensures Norm2(Minus(Weights(c, xs, w, n), target)) <= Norm2(Minus(w, target))
  {
    EnergyBound(c, xs, w, target, n);
    TotalGainGrows(c, xs, w, n);
  }
}
