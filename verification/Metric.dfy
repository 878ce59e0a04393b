/** Greedy centre selection in an arbitrary (pseudo)metric space, and how far from optimal it can be. */
module Metric {
  import opened Sequences

  ghost predicate Pseudometric<P(!new)>(d: (P, P) -> real) {
    && (forall a, b :: d(a, b) >= 0.0)
    && (forall a, b :: d(a, b) == d(b, a))
    && (forall a :: d(a, a) == 0.0)
    && (forall a, b, c :: d(a, c) <= d(a, b) + d(b, c))
  }

  /** Distance from point `p` to the nearest chosen one; 0 when nothing is chosen yet. */
  function Nearest<P>(d: (P, P) -> real, points: seq<P>, p: nat, chosen: seq<nat>): real
    requires p < |points| && Indices(chosen, |points|)
  {
    if chosen == [] then 0.0 else
    var last := d(points[p], points[chosen[|chosen| - 1]]);
    if |chosen| == 1 then last else
    var others := Nearest(d, points, p, chosen[..|chosen| - 1]);
    if others <= last then others else last
  }

  lemma {:induction false} NearestIsMinimum<P>(d: (P, P) -> real, points: seq<P>, p: nat, chosen: seq<nat>)
    returns (at: nat)
    requires p < |points| && Indices(chosen, |points|) && chosen != []
    ensures at < |chosen| && Nearest(d, points, p, chosen) == d(points[p], points[chosen[at]])
    ensures forall j :: 0 <= j < |chosen| ==> Nearest(d, points, p, chosen) <= d(points[p], points[chosen[j]])
  {
    at := |chosen| - 1;
    if |chosen| > 1 {
      var front := chosen[..|chosen| - 1];
      var before := NearestIsMinimum(d, points, p, front);
      assert forall j :: 0 <= j < |front| ==> front[j] == chosen[j];
      if Nearest(d, points, p, front) <= d(points[p], points[chosen[at]]) { at := before; }
    }
  }

  lemma NearestOfChosen<P(!new)>(d: (P, P) -> real, points: seq<P>, chosen: seq<nat>, p: nat, q: nat)
    requires Pseudometric(d) && Indices(chosen, |points|) && p < |points| && q < |points| && p in chosen
    ensures Nearest(d, points, p, chosen) <= Nearest(d, points, q, chosen)
  {
    var k :| 0 <= k < |chosen| && chosen[k] == p;
    var mine := NearestIsMinimum(d, points, p, chosen);
    var its := NearestIsMinimum(d, points, q, chosen);
    assert d(points[p], points[chosen[k]]) == 0.0;
  }

  /** Up to `slack`, no point is farther from the chosen ones than `pick`. */
  ghost predicate Farthest<P>(d: (P, P) -> real, points: seq<P>, slack: real, chosen: seq<nat>, pick: nat)
    requires Indices(chosen, |points|) && pick < |points|
  {
    forall p: nat :: p < |points| ==> Nearest(d, points, p, chosen) <= Nearest(d, points, pick, chosen) + slack
  }

  /** Every pick but the first was, up to `slack`, farthest from the picks before it. */
  ghost predicate Greedy<P>(d: (P, P) -> real, points: seq<P>, slack: real, picks: seq<nat>) {
    && Indices(picks, |points|)
    && forall i :: 1 <= i < |picks| ==> Farthest(d, points, slack, picks[..i], picks[i])
  }

  /** Every point is within `r` of a centre, and the centres may be any points of the space. */
  ghost predicate Covers<P>(d: (P, P) -> real, points: seq<P>, centres: seq<P>, r: real) {
    forall p :: 0 <= p < |points| ==> exists c :: 0 <= c < |centres| && d(points[p], centres[c]) <= r
  }

  /** A point far from every pick would make the picks and itself pairwise far apart. */
  lemma Separated<P(!new)>(d: (P, P) -> real, points: seq<P>, slack: real, picks: seq<nat>, p: nat, i: nat, j: nat,
                           r: real)
    requires Greedy(d, points, slack, picks) && p < |points| && slack >= 0.0
    requires i < j <= |picks| && Nearest(d, points, p, picks) > r + slack
    ensures var far := picks + [p]; d(points[far[j]], points[far[i]]) > r
  {
    var far := NearestIsMinimum(d, points, p, picks);
    if j < |picks| {
      var front := picks[..j];
      var mine := NearestIsMinimum(d, points, p, front);
      var its := NearestIsMinimum(d, points, picks[j], front);
      assert front[mine] == picks[mine] && front[i] == picks[i];
    }
  }

  /** The greedy bound. If any `|picks|` centres whatsoever cover the points within `r`, the greedy picks
      cover them within `2 r + slack`. */
  lemma GreedyCovers<P(!new)>(d: (P, P) -> real, points: seq<P>, slack: real, picks: seq<nat>, centres: seq<P>, r: real,
                              p: nat)
    requires Pseudometric(d) && Greedy(d, points, slack, picks) && slack >= 0.0
    requires |centres| <= |picks| && Covers(d, points, centres, r)
    requires p < |points|
    ensures Nearest(d, points, p, picks) <= 2.0 * r + slack
  {
    if Nearest(d, points, p, picks) > 2.0 * r + slack {
      var all := picks + [p];
      var homes := Homes(d, points, centres, r, all);
      var i, j := Pigeonhole(homes, |centres|);
      ThroughCentre(d, points[all[j]], points[all[i]], centres[homes[i]], r);
      Separated(d, points, slack, picks, p, i, j, 2.0 * r);
      assert false;
    }
  }

  lemma ThroughCentre<P(!new)>(d: (P, P) -> real, a: P, b: P, c: P, r: real)
    requires Pseudometric(d) && d(a, c) <= r && d(b, c) <= r
    ensures d(a, b) <= 2.0 * r
  {
    assert d(a, b) <= d(a, c) + d(c, b);
  }

  lemma {:induction false} Homes<P>(d: (P, P) -> real, points: seq<P>, centres: seq<P>, r: real, all: seq<nat>)
    returns (homes: seq<nat>)
    requires Covers(d, points, centres, r) && Indices(all, |points|)
    ensures |homes| == |all|
    ensures forall i :: 0 <= i < |all| ==> homes[i] < |centres| && d(points[all[i]], centres[homes[i]]) <= r
  {
    homes := [];
    if all != [] {
      var front := all[..|all| - 1];
      homes := Homes(d, points, centres, r, front);
      var c :| 0 <= c < |centres| && d(points[all[|all| - 1]], centres[c]) <= r;
      homes := homes + [c];
      assert forall i :: 0 <= i < |front| ==> front[i] == all[i];
    }
  }
}
