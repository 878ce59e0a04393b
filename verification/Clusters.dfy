/** Keeping a few representatives of every embedding cluster: the medoid, then farthest-first. */
module Clusters {
  import opened Metric
  import opened Sequences

  /** Elementwise closeness to zero. */
  const CLOSE: real := 0.00000001

  const NOISE := -1

  function Distances<P>(d: (P, P) -> real, points: seq<P>, centre: P): (s: seq<real>)
    ensures |s| == |points|
  {
    seq(|points|, i requires 0 <= i < |points| => d(points[i], centre))
  }

  method FirstMin(s: seq<real>) returns (b: nat)
    requires s != []
    ensures b < |s| && forall i :: 0 <= i < |s| ==> s[b] <= s[i] && (i < b ==> s[b] < s[i])
  {
    b := 0;
    for i := 1 to |s|
      invariant b < i
      invariant forall j :: 0 <= j < i ==> s[b] <= s[j] && (j < b ==> s[b] < s[j])
    {
      if s[i] < s[b] { b := i; }
    }
  }

  method FirstMax(s: seq<real>) returns (b: nat)
    requires s != []
    ensures b < |s| && forall i :: 0 <= i < |s| ==> s[i] <= s[b] && (i < b ==> s[i] < s[b])
  {
    b := 0;
    for i := 1 to |s|
      invariant b < i
      invariant forall j :: 0 <= j < i ==> s[j] <= s[b] && (j < b ==> s[j] < s[b])
    {
      if s[i] > s[b] { b := i; }
    }
  }

  /** The scan for the next extreme: the first unselected member of greatest distance to the selected
      ones, or `none` when every member is selected. */
  method NextExtreme<P(!new)>(d: (P, P) -> real, points: seq<P>, selected: seq<nat>) returns (found: bool, best: nat)
    requires Pseudometric(d) && Indices(selected, |points|) && selected != []
    ensures found <==> exists p: nat :: p < |points| && p !in selected
    ensures found ==> best < |points| && best !in selected && Farthest(d, points, 0.0, selected, best)
  {
    hide Nearest, Pseudometric;
    var bestDist := -1.0;
    found, best := false, 0;
    for j := 0 to |points|
      invariant found <==> exists p: nat :: p < j && p !in selected
      invariant found ==> best < j && best !in selected && bestDist == Nearest(d, points, best, selected)
      invariant !found ==> bestDist == -1.0
      invariant forall p: nat :: p < j && p !in selected ==> Nearest(d, points, p, selected) <= bestDist
    {
      if j !in selected {
        NearestNonNegative(d, points, j, selected);
        var dist := Nearest(d, points, j, selected);
        if dist > bestDist {
          found, best, bestDist := true, j, dist;
        }
      }
    }
    if found {
      forall p: nat | p < |points| ensures Nearest(d, points, p, selected) <= Nearest(d, points, best, selected) + 0.0 {
        if p in selected { NearestOfChosen(d, points, selected, p, best); }
      }
    }
  }

  lemma NearestNonNegative<P(!new)>(d: (P, P) -> real, points: seq<P>, p: nat, chosen: seq<nat>)
    requires Pseudometric(d) && Indices(chosen, |points|) && p < |points| && chosen != []
    ensures Nearest(d, points, p, chosen) >= 0.0
  {
    var at := NearestIsMinimum(d, points, p, chosen);
  }

  /** How many members of a cluster of `n` are kept: without extremes, the medoid and perhaps one more. */
  predicate Quota(extremes: int, n: nat, kept: nat) {
    if extremes > 0 then kept == (if 1 + extremes < n then 1 + extremes else n) else 1 <= kept <= 2
  }

  /** `medoid` is a member nearest to the centroid. */
  ghost predicate IsMedoid<P>(d: (P, P) -> real, points: seq<P>, centre: P, medoid: nat) {
    medoid < |points| && forall i :: 0 <= i < |points| ==> d(points[medoid], centre) <= d(points[i], centre)
  }

  /** `picks` is a greedy choice of the right size that starts with a medoid. */
  ghost predicate Chosen<P>(d: (P, P) -> real, members: seq<P>, centroid: seq<P> -> P, extremes: int, picks: seq<nat>) {
    && picks != [] && Distinct(picks) && Greedy(d, members, 0.0, picks)
    && IsMedoid(d, members, centroid(members), picks[0])
    && Quota(extremes, |members|, |picks|)
    && (extremes <= 0 ==> (|picks| == 2 <==> Scattered(d, members, centroid(members), picks[0])))
  }

  /** Some member is not at the centroid, and some is not at the medoid. */
  ghost predicate Scattered<P>(d: (P, P) -> real, members: seq<P>, centre: P, medoid: nat)
    requires medoid < |members|
  {
    && (exists i :: 0 <= i < |members| && d(members[i], centre) > 0.00000001)
    && exists i :: 0 <= i < |members| && d(members[i], members[medoid]) > 0.0
  }

  /** One cluster: the medoid, the member farthest from it, and further extremes. When only the medoid is
      kept, every member is within twice the closeness bound of it. */
  method PickCluster<P(!new)>(d: (P, P) -> real, points: seq<P>, centroid: seq<P> -> P, extremes: int)
    returns (picks: seq<nat>)
    requires Pseudometric(d) && points != []
    ensures Chosen(d, points, centroid, extremes, picks)
    ensures |picks| == 1 ==> forall i :: 0 <= i < |points| ==> d(points[i], points[picks[0]]) <= 0.00000002
  {
    hide Nearest, Pseudometric, Farthest;
    var d2c := Distances(d, points, centroid(points));
    var medoid := FirstMin(d2c);
    picks := [medoid];
    assert IsMedoid(d, points, centroid(points), medoid) by {
      assert forall i :: 0 <= i < |points| ==> d2c[i] == d(points[i], centroid(points));
    }
    NotAllClose(d, points, centroid(points));
    if !(forall i :: 0 <= i < |d2c| ==> -CLOSE <= d2c[i] <= CLOSE) {
      var far := FirstMax(Distances(d, points, points[medoid]));
      FarDiffers(d, points, centroid(points), medoid, far);
      if far != medoid {
        FarIsFarthest(d, points, medoid, far);
        ExtendGreedy(d, points, picks, far);
        picks := picks + [far];
      } else {
        NothingFarther(d, points, medoid);
      }
    } else {
      AllClose(d, points, centroid(points), medoid);
    }
    ghost var before := picks;
    if extremes != 0 {
      while |picks| < 1 + extremes
        invariant picks != [] && picks[0] == medoid && Distinct(picks) && Greedy(d, points, 0.0, picks)
        invariant extremes > 0 ==> |picks| <= 1 + extremes
        invariant extremes <= 0 ==> picks == before
        invariant |picks| == 1 ==> forall i :: 0 <= i < |points| ==> d(points[i], points[medoid]) <= 2.0 * CLOSE
        decreases 1 + extremes - |picks|
      {
        var found, best := NextExtreme(d, points, picks);
        if !found {
          if |picks| < |points| {
            var free := FreeIndex(picks, |points|);
          }
          break;
        }
        ExtendGreedy(d, points, picks, best);
        picks := picks + [best];
      }
      InRangeDistinct(picks, |points|);
    }
  }

  /** The first farthest member is another one exactly if some member is not at the medoid: if all are, they
      are all at the same distance from the centroid, and the medoid is the first of them. */
  lemma FarDiffers<P(!new)>(d: (P, P) -> real, points: seq<P>, centre: P, medoid: nat, far: nat)
    requires Pseudometric(d) && medoid < |points| && far < |points|
    requires var s := Distances(d, points, centre); forall i :: 0 <= i < medoid ==> s[medoid] < s[i]
    requires var s := Distances(d, points, points[medoid]);
      forall i :: 0 <= i < |s| ==> s[i] <= s[far] && (i < far ==> s[i] < s[far])
    ensures far != medoid <==> exists i :: 0 <= i < |points| && d(points[i], points[medoid]) > 0.0
  {
    var s, t := Distances(d, points, centre), Distances(d, points, points[medoid]);
    assert d(points[0], centre) <= d(points[0], points[medoid]) + d(points[medoid], centre);
    assert s[0] == d(points[0], centre) && s[medoid] == d(points[medoid], centre);
    assert t[0] == d(points[0], points[medoid]) && t[far] == d(points[far], points[medoid]) && t[medoid] == 0.0;
    forall i | 0 <= i < |points| ensures t[i] == d(points[i], points[medoid]) {}
    assert t[far] <= 0.0 ==> far == 0;
  }

  lemma NotAllClose<P(!new)>(d: (P, P) -> real, points: seq<P>, centre: P)
    requires Pseudometric(d)
    ensures
      var s := Distances(d, points, centre);
      (forall i :: 0 <= i < |s| ==> -CLOSE <= s[i] <= CLOSE) <==>
        !exists i :: 0 <= i < |points| && d(points[i], centre) > 0.00000001
  {
    var s := Distances(d, points, centre);
    forall i | 0 <= i < |points| ensures s[i] == d(points[i], centre) >= 0.0 {}
  }

  lemma NothingFarther<P(!new)>(d: (P, P) -> real, points: seq<P>, medoid: nat)
    requires Pseudometric(d) && medoid < |points|
    requires var s := Distances(d, points, points[medoid]); forall i :: 0 <= i < |s| ==> s[i] <= s[medoid]
    ensures forall i :: 0 <= i < |points| ==> d(points[i], points[medoid]) <= 2.0 * CLOSE
  {
    var s := Distances(d, points, points[medoid]);
    forall i | 0 <= i < |points| ensures d(points[i], points[medoid]) <= 2.0 * CLOSE {
      assert s[i] <= s[medoid];
    }
  }

  lemma AllClose<P(!new)>(d: (P, P) -> real, points: seq<P>, centre: P, medoid: nat)
    requires Pseudometric(d) && medoid < |points|
    requires var s := Distances(d, points, centre); forall i :: 0 <= i < |s| ==> -CLOSE <= s[i] <= CLOSE
    ensures forall i :: 0 <= i < |points| ==> d(points[i], points[medoid]) <= 2.0 * CLOSE
  {
    var s := Distances(d, points, centre);
    forall i | 0 <= i < |points| ensures d(points[i], points[medoid]) <= 2.0 * CLOSE {
      assert s[i] <= CLOSE && s[medoid] <= CLOSE;
      ThroughCentre(d, points[i], points[medoid], centre, CLOSE);
    }
  }

  lemma FarIsFarthest<P(!new)>(d: (P, P) -> real, points: seq<P>, medoid: nat, far: nat)
    requires medoid < |points| && far < |points|
    requires var s := Distances(d, points, points[medoid]); forall i :: 0 <= i < |s| ==> s[i] <= s[far]
    ensures Farthest(d, points, 0.0, [medoid], far)
  {
    var s := Distances(d, points, points[medoid]);
    forall p: nat | p < |points| ensures Nearest(d, points, p, [medoid]) <= Nearest(d, points, far, [medoid]) + 0.0 {
      assert s[p] <= s[far];
    }
  }

  lemma ExtendGreedy<P>(d: (P, P) -> real, points: seq<P>, picks: seq<nat>, pick: nat)
    requires Greedy(d, points, 0.0, picks) && Distinct(picks) && pick < |points| && pick !in picks
    requires Farthest(d, points, 0.0, picks, pick)
    ensures Greedy(d, points, 0.0, picks + [pick]) && Distinct(picks + [pick])
  {
    hide Farthest;
    var more := picks + [pick];
    forall i | 1 <= i < |more| ensures Farthest(d, points, 0.0, more[..i], more[i]) {
      assert more[..i] == picks[..i];
      assert picks[..|picks|] == picks;
    }
  }

  // ---------- all clusters of a source ----------

  /** The positions carrying a label, in order. */
  function Members(labels: seq<int>, lbl: int): (ms: seq<nat>)
    ensures Indices(ms, |labels|)
    ensures forall i :: 0 <= i < |labels| ==> (labels[i] == lbl <==> i in ms)
    ensures Distinct(ms)
  {
    if labels == [] then [] else
    var n := |labels| - 1;
    var front := Members(labels[..n], lbl);
    if labels[n] == lbl then front + [n] else front
  }

  function At<P>(points: seq<P>, ms: seq<nat>): (s: seq<P>)
    requires Indices(ms, |points|)
    ensures |s| == |ms|
  {
    seq(|ms|, k requires 0 <= k < |ms| => points[ms[k]])
  }

  /** Of the cluster with members `ms`, exactly `picks` are among the kept frames. */
  ghost predicate KeepsExactly(ms: seq<nat>, picks: seq<nat>, kept: set<nat>) {
    forall k: nat :: k < |ms| ==> (ms[k] in kept <==> k in picks)
  }

  /** The kept frames of a cluster are such a choice. */
  ghost predicate Represented<P>(d: (P, P) -> real, points: seq<P>, labels: seq<int>, lbl: int, centroid: seq<P> -> P,
                                 extremes: int, kept: set<nat>)
    requires |labels| == |points|
  {
    var ms := Members(labels, lbl);
    exists picks :: KeepsExactly(ms, picks, kept) && Chosen(d, At(points, ms), centroid, extremes, picks)
  }

  /** All frames of a source: noise is kept, every cluster keeps its representatives, and a frame already
      dropped upstream stays dropped. */
  method ClusterAndSelect<P(!new)>(d: (P, P) -> real, points: seq<P>, labels: seq<int>, centroid: seq<P> -> P,
                                   extremes: int, dropped: seq<bool>) returns (drop: seq<bool>, kept: set<nat>)
    requires Pseudometric(d) && |labels| == |points| == |dropped|
    ensures |drop| == |points|
    ensures forall i :: 0 <= i < |drop| ==> (drop[i] <==> dropped[i] || i !in kept)
    ensures forall i :: 0 <= i < |labels| && labels[i] == NOISE ==> i in kept
    ensures forall i :: 0 <= i < |labels| && labels[i] != NOISE ==>
      Represented(d, points, labels, labels[i], centroid, extremes, kept)
  {
    hide Pseudometric, Members, Represented, KeepsExactly, Chosen;
    var picked: set<nat> := {};
    var todo := set i | 0 <= i < |labels| :: labels[i];
    ghost var finished: set<int> := {};
    while todo != {}
      invariant forall i :: 0 <= i < |labels| ==> labels[i] in todo || labels[i] in finished
      invariant forall l :: l in todo ==> exists i :: 0 <= i < |labels| && labels[i] == l
      invariant todo !! finished
      invariant forall i :: i in picked ==> i < |labels| && labels[i] in finished
      invariant forall i :: 0 <= i < |labels| && labels[i] == NOISE && NOISE in finished ==> i in picked
      invariant forall l :: l in finished && l != NOISE ==>
        Represented(d, points, labels, l, centroid, extremes, picked)
      decreases |todo|
    {
      NonEmpty(todo);
      var l :| l in todo;
      var ms := Members(labels, l);
      ghost var before := picked;
      if l == NOISE {
        picked := picked + set i | i in ms;
        OtherClusters(d, points, labels, centroid, extremes, before, picked, finished, l);
      } else {
        assert ms != [];
        var picks := PickCluster(d, At(points, ms), centroid, extremes);
        PicksInRange(d, At(points, ms), centroid, extremes, picks);
        picked := picked + set k | k in picks :: ms[k];
        OtherClusters(d, points, labels, centroid, extremes, before, picked, finished, l);
        OwnCluster(ms, picks, before, picked);
        IsRepresented(d, points, labels, l, centroid, extremes, picked, picks);
      }
      todo, finished := todo - {l}, finished + {l};
    }
    kept := picked;
    drop := seq(|points|, i requires 0 <= i < |points| => dropped[i] || i !in picked);
  }

  lemma IsRepresented<P>(d: (P, P) -> real, points: seq<P>, labels: seq<int>, lbl: int, centroid: seq<P> -> P,
                         extremes: int, kept: set<nat>, picks: seq<nat>)
    requires |labels| == |points|
    requires KeepsExactly(Members(labels, lbl), picks, kept)
    requires Chosen(d, At(points, Members(labels, lbl)), centroid, extremes, picks)
    ensures Represented(d, points, labels, lbl, centroid, extremes, kept)
  {
  }

  lemma NonEmpty(s: set<int>)
    requires s != {}
    ensures exists x :: x in s
  {
    assert (forall x :: x !in s) ==> s == {};
  }

  lemma PicksInRange<P>(d: (P, P) -> real, points: seq<P>, centroid: seq<P> -> P, extremes: int, picks: seq<nat>)
    requires Chosen(d, points, centroid, extremes, picks)
    ensures Indices(picks, |points|)
  {
  }

  lemma OwnCluster(ms: seq<nat>, picks: seq<nat>, before: set<nat>, picked: set<nat>)
    requires Distinct(ms) && Indices(picks, |ms|) && forall k :: 0 <= k < |ms| ==> ms[k] !in before
    requires picked == before + set k | k in picks :: ms[k]
    ensures KeepsExactly(ms, picks, picked)
  {
  }

  /** Picking within one cluster leaves the others as they were. */
  lemma OtherClusters<P>(d: (P, P) -> real, points: seq<P>, labels: seq<int>, centroid: seq<P> -> P, extremes: int,
                         before: set<nat>, after: set<nat>, finished: set<int>, l: int)
    requires |labels| == |points| && l !in finished && before <= after
    requires forall i :: i in after - before ==> i < |labels| && labels[i] == l
    requires forall m :: m in finished && m != NOISE ==> Represented(d, points, labels, m, centroid, extremes, before)
    ensures forall m :: m in finished && m != NOISE ==> Represented(d, points, labels, m, centroid, extremes, after)
  {
    hide Chosen;
    forall m | m in finished && m != NOISE ensures Represented(d, points, labels, m, centroid, extremes, after) {
      var ms := Members(labels, m);
      var picks :| KeepsExactly(ms, picks, before) && Chosen(d, At(points, ms), centroid, extremes, picks);
      forall k: nat | k < |ms| ensures ms[k] in after <==> k in picks {
        assert ms[k] in ms;
      }
      assert KeepsExactly(ms, picks, after);
    }
  }

  /** The members of a cluster that are kept. */
  function KeptMembers(ms: seq<nat>, kept: set<nat>): set<nat> {
    set k: nat | k < |ms| && ms[k] in kept
  }

  lemma KeptCount(ms: seq<nat>, picks: seq<nat>, kept: set<nat>)
    requires KeepsExactly(ms, picks, kept) && Distinct(picks) && Indices(picks, |ms|)
    ensures |KeptMembers(ms, kept)| == |picks|
  {
    DistinctCount(picks);
    assert KeptMembers(ms, kept) == Elements(picks);
  }

  /** The guarantee per cluster: if any centres, at most as many as the members kept, cover the cluster
      within `r`, then every member is within `2 r` of a kept one. (Keeping is not undoing a drop upstream.) */
  lemma ClusterIsNearOptimal<P(!new)>(d: (P, P) -> real, points: seq<P>, labels: seq<int>, lbl: int,
                                      centroid: seq<P> -> P, extremes: int, kept: set<nat>, centres: seq<P>, r: real,
                                      i: nat)
    returns (rep: nat)
    requires Pseudometric(d) && |labels| == |points| && i < |points| && labels[i] == lbl
    requires Represented(d, points, labels, lbl, centroid, extremes, kept)
    requires Covers(d, At(points, Members(labels, lbl)), centres, r)
    requires |centres| <= |KeptMembers(Members(labels, lbl), kept)|
    ensures rep < |points| && labels[rep] == lbl && rep in kept && d(points[i], points[rep]) <= 2.0 * r
  {
    hide Pseudometric, Nearest, Members, IsMedoid, KeptMembers;
    var ms := Members(labels, lbl);
    var picks :| KeepsExactly(ms, picks, kept) && Chosen(d, At(points, ms), centroid, extremes, picks);
    KeptCount(ms, picks, kept);
    assert i in ms;
    var k: nat :| k < |ms| && ms[k] == i;
    GreedyCovers(d, At(points, ms), 0.0, picks, centres, r, k);
    var at := NearestIsMinimum(d, At(points, ms), k, picks);
    rep := ms[picks[at]];
    assert rep in ms;
  }
}
