/** Active learning: greedy choice of frames by distance to the chosen ones plus weighted uncertainty. */
module ActiveLearning {
  import opened Wrappers
  import opened Metric
  import opened Sequences

  /** Below this spread all frames count as equally uncertain. */
  const SPREAD_EPS: real := 0.00000001

  /** What selection reads of a frame: its embedding and the confidence scores of its boxes. */
  datatype Frame<P> = Frame(embedding: P, scores: seq<real>)

  datatype SelectError = UnknownStrategy

  // ---------- uncertainty ----------

  function Sum(s: seq<real>): real {
    if s == [] then 0.0 else Sum(s[..|s| - 1]) + s[|s| - 1]
  }

  function MaxOf(s: seq<real>): (m: real)
    requires s != []
    ensures m in s && forall i :: 0 <= i < |s| ==> s[i] <= m
  {
    var last := s[|s| - 1];
    if |s| == 1 then last else
    var m := MaxOf(s[..|s| - 1]);
    assert forall i :: 0 <= i < |s| - 1 ==> s[i] == s[..|s| - 1][i];
    if m < last then last else m
  }

  function MinOf(s: seq<real>): (m: real)
    requires s != []
    ensures m in s && forall i :: 0 <= i < |s| ==> m <= s[i]
  {
    var last := s[|s| - 1];
    if |s| == 1 then last else
    var m := MinOf(s[..|s| - 1]);
    assert forall i :: 0 <= i < |s| - 1 ==> s[i] == s[..|s| - 1][i];
    if last < m then last else m
  }

  predicate Known(strategy: string) {
    strategy == "sum" || strategy == "avg" || strategy == "max"
  }

  /** What each confidence lacks to 1. */
  function Lacks(scores: seq<real>): (inv: seq<real>)
    ensures |inv| == |scores|
  {
    seq(|scores|, i requires 0 <= i < |scores| => 1.0 - scores[i])
  }

  /** One number per frame; a frame without boxes is fully uncertain, whatever the strategy. */
  function Aggregate(strategy: string, scores: seq<real>): real
    requires Known(strategy) || scores == []
  {
    if scores == [] then 1.0 else
    var inv := Lacks(scores);
    if strategy == "sum" then Sum(inv)
    else if strategy == "avg" then Sum(inv) / |scores| as real
    else MaxOf(inv)
  }

  lemma LacksSnoc(scores: seq<real>, c: real)
    ensures Lacks(scores + [c]) == Lacks(scores) + [1.0 - c] && Lacks(scores + [c])[..|scores|] == Lacks(scores)
  {
  }

  /** Under `sum` the uncertainty of a frame is the sum of what each confidence lacks to 1. */
  lemma AggregateSum(scores: seq<real>, c: real)
    ensures Aggregate("sum", []) == 1.0 && Aggregate("sum", [c]) == 1.0 - c
    ensures scores != [] ==> Aggregate("sum", scores + [c]) == Aggregate("sum", scores) + (1.0 - c)
  {
    LacksSnoc(scores, c);
    LacksSnoc([], c);
    assert [] + [c] == [c];
  }

  /** Under `avg` it is their mean. */
  lemma AggregateAvg(scores: seq<real>)
    ensures scores != [] ==> Aggregate("avg", scores) * |scores| as real == Aggregate("sum", scores)
    ensures scores == [] ==> Aggregate("avg", scores) == 1.0
  {
    hide Sum, Lacks;
    if scores != [] { Mean(Sum(Lacks(scores)), |scores|); }
  }

  /** Under `max` it is the largest of them. */
  lemma AggregateMax(scores: seq<real>)
    ensures scores == [] ==> Aggregate("max", scores) == 1.0
    ensures scores != [] ==> exists i :: 0 <= i < |scores| && Aggregate("max", scores) == 1.0 - scores[i]
    ensures forall i :: 0 <= i < |scores| ==> 1.0 - scores[i] <= Aggregate("max", scores)
  {
    var inv := Lacks(scores);
    if scores != [] {
      var i :| 0 <= i < |inv| && inv[i] == MaxOf(inv);
      assert inv[i] == 1.0 - scores[i];
      forall k | 0 <= k < |scores| ensures 1.0 - scores[k] <= MaxOf(inv) { assert inv[k] <= MaxOf(inv); }
    }
  }

  lemma Mean(sum: real, n: nat)
    requires n > 0
    ensures (sum / n as real) * n as real == sum
  {
  }

  lemma {:induction false} SumMonotone(a: seq<real>, b: seq<real>)
    requires |a| == |b| && forall i :: 0 <= i < |a| ==> a[i] <= b[i]
    ensures Sum(a) <= Sum(b)
  {
    if a != [] { SumMonotone(a[..|a| - 1], b[..|b| - 1]); }
  }

  lemma QuotientMonotone(a: real, b: real, n: nat)
    requires a <= b && n > 0
    ensures a / n as real <= b / n as real
  {
  }

  /** Lowering confidences never lowers the uncertainty, whatever the strategy. */
  lemma AggregateMonotone(strategy: string, scores: seq<real>, lower: seq<real>)
    requires Known(strategy) && |scores| == |lower| && forall i :: 0 <= i < |scores| ==> lower[i] <= scores[i]
    ensures Aggregate(strategy, scores) <= Aggregate(strategy, lower)
  {
    if scores != [] {
      var a, b := Lacks(scores), Lacks(lower);
      SumMonotone(a, b);
      QuotientMonotone(Sum(a), Sum(b), |scores|);
      var i :| 0 <= i < |a| && a[i] == MaxOf(a);
      assert b[i] <= MaxOf(b);
    }
  }

  /** Rescaled to [0, 1] unless the values hardly differ. */
  function Normalise(raw: seq<real>): (u: seq<real>)
    ensures |u| == |raw|
  {
    if raw == [] then raw else
    var low, spread := MinOf(raw), MaxOf(raw) - MinOf(raw);
    if spread > SPREAD_EPS then seq(|raw|, i requires 0 <= i < |raw| => (raw[i] - low) / spread) else raw
  }

  lemma Quotients(a: real, b: real, s: real)
    requires s > 0.0 && a - b <= s
    ensures a / s - b / s <= 1.0
    ensures a <= b <==> a / s <= b / s
  {
    assert a / s - b / s == (a - b) / s;
    assert (a - b) / s <= 1.0;
    if a <= b { assert (a - b) / s <= 0.0; } else { assert (a - b) / s > 0.0; }
  }

  /** Normalised uncertainties differ by at most 1 and rank the frames as the raw ones do. */
  lemma NormaliseSpread(raw: seq<real>, i: nat, j: nat)
    requires i < |raw| && j < |raw|
    ensures Normalise(raw)[i] - Normalise(raw)[j] <= 1.0
    ensures Normalise(raw)[i] <= Normalise(raw)[j] <==> raw[i] <= raw[j]
  {
    var low, spread := MinOf(raw), MaxOf(raw) - MinOf(raw);
    if spread > SPREAD_EPS {
      Quotients(raw[i] - low, raw[j] - low, spread);
    }
  }

  /** The least value becomes 0 and the greatest 1, and everything between keeps its proportion, if they are
      more than a hundred-millionth apart; otherwise nothing changes. */
  lemma NormaliseExactly(raw: seq<real>, low: nat, high: nat, i: nat)
    requires low < |raw| && high < |raw| && i < |raw|
    requires forall k :: 0 <= k < |raw| ==> raw[low] <= raw[k] <= raw[high]
    ensures
      var spread := raw[high] - raw[low];
      if spread > 0.00000001 then
        Normalise(raw)[low] == 0.0 && Normalise(raw)[high] == 1.0
        && Normalise(raw)[i] * spread == raw[i] - raw[low]
      else Normalise(raw) == raw
  {
    hide MinOf, MaxOf;
    var spread := raw[high] - raw[low];
    Extremes(raw, low, high);
    if spread > SPREAD_EPS {
      Rescaled(raw[i] - raw[low], spread);
      Rescaled(raw[high] - raw[low], spread);
    }
  }

  lemma Extremes(raw: seq<real>, low: nat, high: nat)
    requires low < |raw| && high < |raw| && forall k :: 0 <= k < |raw| ==> raw[low] <= raw[k] <= raw[high]
    ensures MinOf(raw) == raw[low] && MaxOf(raw) == raw[high]
  {
    hide MinOf, MaxOf;
    assert raw[low] in raw && raw[high] in raw;
    var i :| 0 <= i < |raw| && raw[i] == MinOf(raw);
    var j :| 0 <= j < |raw| && raw[j] == MaxOf(raw);
  }

  lemma Rescaled(a: real, spread: real)
    requires spread > 0.0
    ensures (a / spread) * spread == a && (a == spread ==> a / spread == 1.0) && 0.0 / spread == 0.0
  {
  }

  function RawUncertainties<P>(strategy: string, frames: seq<Frame<P>>): (raw: seq<real>)
    requires Known(strategy) || Unscored(frames)
    ensures |raw| == |frames|
  {
    seq(|frames|, i requires 0 <= i < |frames| => Aggregate(strategy, frames[i].scores))
  }

  predicate Unscored<P>(frames: seq<Frame<P>>) {
    forall i :: 0 <= i < |frames| ==> frames[i].scores == []
  }

  method Uncertainties<P>(strategy: string, frames: seq<Frame<P>>) returns (r: Result<seq<real>, SelectError>)
    ensures r.Err? <==> !Known(strategy) && !Unscored(frames)
    ensures r.Ok? ==> r.value == Normalise(RawUncertainties(strategy, frames))
  {
    var uncert := new real[|frames|];
    for i := 0 to |frames|
      invariant Known(strategy) || Unscored(frames[..i])
      invariant forall j :: 0 <= j < i ==>
        (Known(strategy) || frames[j].scores == []) && uncert[j] == Aggregate(strategy, frames[j].scores)
    {
      if frames[i].scores != [] && !Known(strategy) {
        return Err(UnknownStrategy);
      }
      uncert[i] := Aggregate(strategy, frames[i].scores);
    }
    assert frames[..|frames|] == frames;
    assert uncert[..] == RawUncertainties(strategy, frames);
    r := Ok(Normalise(uncert[..]));
  }

  // ---------- selection ----------

  function Embeddings<P>(frames: seq<Frame<P>>): (e: seq<P>)
    ensures |e| == |frames|
  {
    seq(|frames|, i requires 0 <= i < |frames| => frames[i].embedding)
  }

  /** What an uncertainty adds to a score. */
  function Weigh(w: real, u: real): real {
    w * u
  }

  function Scores<P>(d: (P, P) -> real, points: seq<P>, u: seq<real>, w: real, chosen: seq<nat>): (s: seq<real>)
    requires Indices(chosen, |points|) && |u| == |points|
    ensures |s| == |points|
  {
    seq(|points|, p requires 0 <= p < |points| => Nearest(d, points, p, chosen) + Weigh(w, u[p]))
  }

  /** The first maximum among the entries not taken. */
  predicate Best(scores: seq<real>, taken: seq<nat>, b: nat) {
    && b < |scores| && b !in taken
    && forall p: nat :: p < |scores| && p !in taken ==> scores[p] <= scores[b] && (p < b ==> scores[p] < scores[b])
  }

  lemma BestInRange(scores: seq<real>, taken: seq<nat>, b: nat)
    requires Best(scores, taken, b)
    ensures b < |scores|
  {
  }

  /** Each pick is the best of the frames not picked before it. */
  predicate Selection<P>(d: (P, P) -> real, points: seq<P>, u: seq<real>, w: real, picks: seq<nat>) {
    && |u| == |points| && Indices(picks, |points|)
    && forall i :: 0 <= i < |picks| ==> Best(Scores(d, points, u, w, picks[..i]), picks[..i], picks[i])
  }

  method ArgMax(scores: seq<real>, taken: seq<nat>) returns (b: nat)
    requires |taken| < |scores|
    ensures Best(scores, taken, b)
  {
    ghost var free := FreeIndex(taken, |scores|);
    var found := false;
    b := 0;
    for p := 0 to |scores|
      invariant found ==> b < p && b !in taken
      invariant found <==> exists q: nat :: q < p && q !in taken
      invariant found ==> forall q: nat :: q < p && q !in taken ==>
        scores[q] <= scores[b] && (q < b ==> scores[q] < scores[b])
    {
      if p !in taken && (!found || scores[p] > scores[b]) {
        found, b := true, p;
      }
    }
  }

  method ActiveSelect<P>(frames: seq<Frame<P>>, d: (P, P) -> real, strategy: string, numToSelect: int, confWeight: real)
      returns (r: Result<seq<nat>, SelectError>)
    ensures numToSelect <= 0 ==> r == Ok([])
    ensures r.Err? <==> numToSelect > 0 && !Known(strategy) && !Unscored(frames)
    ensures r.Ok? && numToSelect > 0 ==>
      && |r.value| == (if numToSelect < |frames| then numToSelect else |frames|)
      && Selection(d, Embeddings(frames), Normalise(RawUncertainties(strategy, frames)), confWeight, r.value)
  {
    var take := if numToSelect < |frames| then numToSelect else |frames|;
    if take <= 0 {
      return Ok([]);
    }
    var points := Embeddings(frames);
    var uncert := Uncertainties(strategy, frames);
    if uncert.Err? {
      return Err(uncert.error);
    }
    var picks: seq<nat> := [];
    for i := 0 to take
      invariant |picks| == i
      invariant Selection(d, points, uncert.value, confWeight, picks)
    {
      var best := ArgMax(Scores(d, points, uncert.value, confWeight, picks), picks);
      Extend(d, points, uncert.value, confWeight, picks, best);
      picks := picks + [best];
    }
    r := Ok(picks);
  }

  lemma Extend<P>(d: (P, P) -> real, points: seq<P>, u: seq<real>, w: real, picks: seq<nat>, best: nat)
    requires Selection(d, points, u, w, picks) && Best(Scores(d, points, u, w, picks), picks, best)
    ensures Selection(d, points, u, w, picks + [best])
  {
    hide Scores, Best;
    var more := picks + [best];
    assert best < |points| by { BestInRange(Scores(d, points, u, w, picks), picks, best); }
    forall i | 0 <= i < |more| ensures Best(Scores(d, points, u, w, more[..i]), more[..i], more[i]) {
      assert more[..i] == picks[..i];
    }
  }

  // ---------- what selection promises ----------

  /** Each pick beats every frame not picked before it in distance to the nearest pick so far, or 0 at first,
      plus the weighted uncertainty; among equals it is the first. */
  lemma PickBeatsOthers<P>(d: (P, P) -> real, points: seq<P>, u: seq<real>, w: real, picks: seq<nat>, i: nat, p: nat)
    requires Selection(d, points, u, w, picks) && i < |picks| && p < |points| && p !in picks[..i]
    ensures picks[i] < |points| && picks[i] !in picks[..i] && Indices(picks[..i], |points|)
    ensures
      var pick, chosen := picks[i], picks[..i];
      var its, mine := Nearest(d, points, p, chosen) + w * u[p], Nearest(d, points, pick, chosen) + w * u[pick];
      its <= mine && (p < pick ==> its < mine)
  {
    hide Nearest;
    var scores := Scores(d, points, u, w, picks[..i]);
    assert Best(scores, picks[..i], picks[i]);
    assert scores[p] <= scores[picks[i]];
  }

  lemma SelectionDistinct<P>(d: (P, P) -> real, points: seq<P>, u: seq<real>, w: real, picks: seq<nat>)
    requires Selection(d, points, u, w, picks)
    ensures Distinct(picks)
  {
    hide Scores;
    forall i, j | 0 <= i < j < |picks| ensures picks[i] != picks[j] {
      assert Best(Scores(d, points, u, w, picks[..j]), picks[..j], picks[j]);
      assert picks[..j][i] == picks[i];
    }
  }

  function Abs(x: real): real {
    if x < 0.0 then -x else x
  }

  /** Uncertainties that differ by at most 1. */
  predicate Spread(u: seq<real>) {
    forall i, j :: 0 <= i < |u| && 0 <= j < |u| ==> u[i] - u[j] <= 1.0
  }

  lemma WeighNonNegative(w: real, u: real)
    requires w >= 0.0 && u >= 0.0
    ensures Weigh(w, u) >= 0.0
  {
  }

  lemma WeighExpand(w: real, a: real, b: real)
    ensures Weigh(w, 1.0 - (a - b)) == w - Weigh(w, a) + Weigh(w, b)
    ensures Weigh(-w, 1.0 - (b - a)) == -w - Weigh(w, a) + Weigh(w, b)
  {
  }

  lemma Weighted(w: real, a: real, b: real)
    requires a - b <= 1.0 && b - a <= 1.0
    ensures Weigh(w, a) - Weigh(w, b) <= Abs(w)
  {
    hide Weigh;
    WeighExpand(w, a, b);
    if w < 0.0 {
      WeighNonNegative(-w, 1.0 - (b - a));
    } else {
      WeighNonNegative(w, 1.0 - (a - b));
    }
  }

  lemma BestBeats<P>(d: (P, P) -> real, points: seq<P>, u: seq<real>, w: real, chosen: seq<nat>, pick: nat, p: nat)
    requires Indices(chosen, |points|) && |u| == |points| && p < |points| && p !in chosen
    requires Best(Scores(d, points, u, w, chosen), chosen, pick)
    ensures pick < |points|
    ensures Nearest(d, points, p, chosen) + Weigh(w, u[p]) <= Nearest(d, points, pick, chosen) + Weigh(w, u[pick])
  {
    hide Nearest, Weigh;
    var scores := Scores(d, points, u, w, chosen);
    assert scores[p] <= scores[pick];
  }

  lemma BestIsNearlyFarthest<P(!new)>(d: (P, P) -> real, points: seq<P>, u: seq<real>, w: real, chosen: seq<nat>,
                                      pick: nat, p: nat)
    requires Pseudometric(d) && Indices(chosen, |points|) && |u| == |points| && Spread(u)
    requires Best(Scores(d, points, u, w, chosen), chosen, pick) && p < |points|
    ensures Nearest(d, points, p, chosen) <= Nearest(d, points, pick, chosen) + Abs(w)
  {
    hide Nearest, Pseudometric, Scores, Abs, Weigh, Best;
    BestInRange(Scores(d, points, u, w, chosen), chosen, pick);
    if p in chosen {
      NearestOfChosen(d, points, chosen, p, pick);
      AbsNonNegative(w);
    } else {
      BestBeats(d, points, u, w, chosen, pick, p);
      Weighted(w, u[pick], u[p]);
    }
  }

  lemma AbsNonNegative(w: real)
    ensures Abs(w) >= 0.0
  {
  }

  /** The uncertainty term disturbs farthest-first choice by at most its weight, of either sign. */
  lemma SelectionIsGreedy<P(!new)>(d: (P, P) -> real, points: seq<P>, u: seq<real>, w: real, picks: seq<nat>)
    requires Pseudometric(d) && Selection(d, points, u, w, picks) && Spread(u)
    ensures Greedy(d, points, Abs(w), picks)
  {
    hide Nearest, Pseudometric, Best, Scores, Abs;
    forall i | 1 <= i < |picks| ensures Farthest(d, points, Abs(w), picks[..i], picks[i]) {
      forall p: nat | p < |points|
        ensures Nearest(d, points, p, picks[..i]) <= Nearest(d, points, picks[i], picks[..i]) + Abs(w)
      {
        BestIsNearlyFarthest(d, points, u, w, picks[..i], picks[i], p);
      }
    }
  }

  /** The guarantee: whatever centres an adversary picks, as many as the frames selected and anywhere in
      embedding space, if they cover all frames within `r` then every frame is within `2 r + |weight|` of
      a selected one. Negative weights included. */
  lemma SelectionIsNearOptimal<P(!new)>(d: (P, P) -> real, frames: seq<Frame<P>>, strategy: string, w: real,
                                        picks: seq<nat>, centres: seq<P>, r: real, p: nat)
    requires Pseudometric(d) && (Known(strategy) || Unscored(frames))
    requires Selection(d, Embeddings(frames), Normalise(RawUncertainties(strategy, frames)), w, picks)
    requires |centres| <= |picks| && Covers(d, Embeddings(frames), centres, r) && p < |frames|
    ensures Nearest(d, Embeddings(frames), p, picks) <= 2.0 * r + Abs(w)
  {
    hide Normalise, Selection, Nearest, Embeddings;
    var raw := RawUncertainties(strategy, frames);
    forall i, j | 0 <= i < |raw| && 0 <= j < |raw| ensures Normalise(raw)[i] - Normalise(raw)[j] <= 1.0 {
      NormaliseSpread(raw, i, j);
    }
    SelectionIsGreedy(d, Embeddings(frames), Normalise(raw), w, picks);
    GreedyCovers(d, Embeddings(frames), Abs(w), picks, centres, r, p);
  }

  lemma WeighMonotone(w: real, a: real, b: real)
    requires w > 0.0 && Weigh(w, a) <= Weigh(w, b)
    ensures a <= b
  {
    assert a > b ==> w * (a - b) > 0.0;
  }

  /** With a positive weight the first frame selected is a most uncertain one. */
  lemma FirstIsMostUncertain<P>(d: (P, P) -> real, frames: seq<Frame<P>>, strategy: string, w: real, picks: seq<nat>,
                                p: nat)
    requires (Known(strategy) || Unscored(frames)) && w > 0.0 && picks != [] && p < |frames|
    requires Selection(d, Embeddings(frames), Normalise(RawUncertainties(strategy, frames)), w, picks)
    ensures RawUncertainties(strategy, frames)[p] <= RawUncertainties(strategy, frames)[picks[0]]
  {
    hide Normalise, Weigh;
    var raw := RawUncertainties(strategy, frames);
    var u := Normalise(raw);
    var scores := Scores(d, Embeddings(frames), u, w, []);
    assert picks[..0] == [];
    assert Best(scores, [], picks[0]);
    assert scores[p] <= scores[picks[0]];
    WeighMonotone(w, u[p], u[picks[0]]);
    NormaliseSpread(raw, p, picks[0]);
  }

  /** The selection is determined by its inputs: ties go to the earlier frame. */
  lemma {:induction false} SelectionUnique<P>(d: (P, P) -> real, points: seq<P>, u: seq<real>, w: real, a: seq<nat>,
                                              b: seq<nat>)
    requires Selection(d, points, u, w, a) && Selection(d, points, u, w, b) && |a| == |b|
    ensures a == b
  {
    if a != [] {
      var n := |a| - 1;
      SelectionPrefix(d, points, u, w, a, n);
      SelectionPrefix(d, points, u, w, b, n);
      SelectionUnique(d, points, u, w, a[..n], b[..n]);
      var scores := Scores(d, points, u, w, a[..n]);
      assert Best(scores, a[..n], a[n]) && Best(scores, a[..n], b[n]);
      assert a == a[..n] + [a[n]] && b == b[..n] + [b[n]];
    }
  }

  lemma SelectionPrefix<P>(d: (P, P) -> real, points: seq<P>, u: seq<real>, w: real, picks: seq<nat>, n: nat)
    requires Selection(d, points, u, w, picks) && n <= |picks|
    ensures Selection(d, points, u, w, picks[..n])
  {
    hide Best, Scores;
    var fewer := picks[..n];
    forall i | 0 <= i < n ensures Best(Scores(d, points, u, w, fewer[..i]), fewer[..i], fewer[i]) {
      assert fewer[..i] == picks[..i];
    }
  }
}
