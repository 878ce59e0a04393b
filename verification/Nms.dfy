/** Non-maximum suppression over a score order, in exact arithmetic. */
module Nms {
  import opened Sequences

  datatype Box = Box(x1: real, y1: real, x2: real, y2: real)

  function Max(a: real, b: real): real {
    if a < b then b else a
  }

  function Min(a: real, b: real): real {
    if b < a then b else a
  }

  function Area(b: Box): real {
    (b.x2 - b.x1) * (b.y2 - b.y1)
  }

  function Intersection(a: Box, b: Box): real {
    Max(0.0, Min(a.x2, b.x2) - Max(a.x1, b.x1)) * Max(0.0, Min(a.y2, b.y2) - Max(a.y1, b.y1))
  }

  function Union(a: Box, b: Box): real {
    Area(a) + Area(b) - Intersection(a, b)
  }

  function Iou(a: Box, b: Box): real
    requires Union(a, b) != 0.0
  {
    Intersection(a, b) / Union(a, b)
  }

  /** `b` stays a candidate after `a` is kept. A zero union makes the quotient infinite or undefined, and
      the comparison with the threshold false. */
  predicate Survives(a: Box, b: Box, threshold: real) {
    Union(a, b) != 0.0 && Iou(a, b) < threshold
  }

  lemma SurvivesSymmetric(a: Box, b: Box, threshold: real)
    ensures Survives(a, b, threshold) == Survives(b, a, threshold)
  {
  }

  lemma ProductMonotone(w: real, h: real, a: real, b: real)
    requires 0.0 <= w <= a && 0.0 <= h <= b
    ensures 0.0 <= w * h <= a * b
  {
    assert w * h <= a * h;
    assert a * h <= a * b;
  }

  lemma SameSign(w: real, h: real)
    requires w * h > 0.0
    ensures w > 0.0 <==> h > 0.0
    ensures w < 0.0 <==> h < 0.0
  {
    assert w > 0.0 && h < 0.0 ==> w * (-h) > 0.0;
    assert w < 0.0 && h > 0.0 ==> (-w) * h > 0.0;
  }

  lemma IntersectionWithin(a: Box, b: Box)
    requires Area(a) > 0.0
    ensures 0.0 <= Intersection(a, b) <= Area(a)
  {
    var w, h := Max(0.0, Min(a.x2, b.x2) - Max(a.x1, b.x1)), Max(0.0, Min(a.y2, b.y2) - Max(a.y1, b.y1));
    var aw, ah := a.x2 - a.x1, a.y2 - a.y1;
    assert aw * ah == Area(a);
    SameSign(aw, ah);
    if aw > 0.0 {
      ProductMonotone(w, h, aw, ah);
    } else {
      assert w == 0.0;
    }
  }

  /** Between boxes of positive area the overlap is a number in [0, 1], and surviving means being below
      the threshold. */
  lemma IouDefined(a: Box, b: Box, threshold: real)
    requires Area(a) > 0.0 && Area(b) > 0.0
    ensures Union(a, b) > 0.0 && 0.0 <= Iou(a, b) <= 1.0
    ensures Survives(a, b, threshold) <==> Iou(a, b) < threshold
  {
    IntersectionWithin(a, b);
    IntersectionWithin(b, a);
    assert Intersection(a, b) == Intersection(b, a);
    Quotient(Intersection(a, b), Union(a, b));
  }

  lemma Quotient(i: real, u: real)
    requires 0.0 <= i <= u && u > 0.0
    ensures 0.0 <= i / u <= 1.0
  {
  }

  /** Boxes without area suppress each other whatever the threshold: their overlap is no number. */
  lemma FlatBoxesSuppress(a: Box, b: Box, threshold: real)
    requires a.x1 <= a.x2 && a.y1 <= a.y2 && (a.x1 == a.x2 || a.y1 == a.y2)
    requires b.x1 <= b.x2 && b.y1 <= b.y2 && (b.x1 == b.x2 || b.y1 == b.y2)
    ensures !Survives(a, b, threshold)
  {
    var w, h := Max(0.0, Min(a.x2, b.x2) - Max(a.x1, b.x1)), Max(0.0, Min(a.y2, b.y2) - Max(a.y1, b.y1));
    assert w == 0.0 || h == 0.0;
    assert Area(a) == 0.0 && Area(b) == 0.0;
  }

  // ---------- what the overlap measures ----------

  predicate Between(low: real, x: real, high: real) {
    low < x < high
  }

  /** A point strictly inside a box. */
  predicate Inside(b: Box, x: real, y: real) {
    Between(b.x1, x, b.x2) && Between(b.y1, y, b.y2)
  }

  /** `c` holds exactly the points that `a` and `b` share. */
  ghost predicate Common(a: Box, b: Box, c: Box) {
    forall x, y :: Inside(c, x, y) <==> Inside(a, x, y) && Inside(b, x, y)
  }

  predicate NonEmpty(b: Box) {
    b.x1 < b.x2 && b.y1 < b.y2
  }

  /** Two open intervals with the same points, one of them known to have some, are the same. */
  lemma SameInterval(l: real, h: real, low: real, high: real)
    requires l < h && forall x :: Between(l, x, h) <==> Between(low, x, high)
    ensures l == low && h == high
  {
    var m, p, q := (l + h) / 2.0, (l + low) / 2.0, (h + high) / 2.0;
    assert Between(l, m, h);
    assert Between(l, p, h) <==> Between(low, p, high);
    assert Between(l, q, h) <==> Between(low, q, high);
  }

  /** The intersection is the area of what the boxes have in common, whatever box describes that. */
  lemma IntersectionIsCommonArea(a: Box, b: Box, c: Box)
    requires NonEmpty(c) && Common(a, b, c)
    ensures Intersection(a, b) == (c.x2 - c.x1) * (c.y2 - c.y1)
  {
    var y, x := (c.y1 + c.y2) / 2.0, (c.x1 + c.x2) / 2.0;
    var x1, x2, y1, y2 := Max(a.x1, b.x1), Min(a.x2, b.x2), Max(a.y1, b.y1), Min(a.y2, b.y2);
    assert Inside(c, x, y);
    forall u ensures Between(c.x1, u, c.x2) <==> Between(x1, u, x2) {
      assert Inside(c, u, y) <==> Inside(a, u, y) && Inside(b, u, y);
    }
    forall u ensures Between(c.y1, u, c.y2) <==> Between(y1, u, y2) {
      assert Inside(c, x, u) <==> Inside(a, x, u) && Inside(b, x, u);
    }
    SameInterval(c.x1, c.x2, x1, x2);
    SameInterval(c.y1, c.y2, y1, y2);
  }

  /** And it is zero when boxes that are not empty share no point. */
  lemma DisjointIntersection(a: Box, b: Box)
    requires NonEmpty(a) && NonEmpty(b) && forall x, y :: !(Inside(a, x, y) && Inside(b, x, y))
    ensures Intersection(a, b) == 0.0
  {
    var x1, x2, y1, y2 := Max(a.x1, b.x1), Min(a.x2, b.x2), Max(a.y1, b.y1), Min(a.y2, b.y2);
    if x1 < x2 && y1 < y2 {
      assert Inside(a, (x1 + x2) / 2.0, (y1 + y2) / 2.0);
    }
  }

  /** The overlap is the common area over the area of both together. */
  lemma IouExactly(a: Box, b: Box, c: Box)
    requires NonEmpty(a) && NonEmpty(b) && NonEmpty(c) && Common(a, b, c)
    ensures
      var common := (c.x2 - c.x1) * (c.y2 - c.y1);
      && Union(a, b) == (a.x2 - a.x1) * (a.y2 - a.y1) + (b.x2 - b.x1) * (b.y2 - b.y1) - common > 0.0
      && Iou(a, b) * Union(a, b) == common
  {
    hide Iou;
    AreaPositive(a);
    AreaPositive(b);
    IouDefined(a, b, 0.0);
    IntersectionIsCommonArea(a, b, c);
    IouTimesUnion(a, b);
  }

  lemma IouTimesUnion(a: Box, b: Box)
    requires Union(a, b) > 0.0
    ensures Iou(a, b) * Union(a, b) == Intersection(a, b)
  {
    hide Union, Intersection;
    Divides(Intersection(a, b), Union(a, b));
  }

  lemma AreaPositive(b: Box)
    requires NonEmpty(b)
    ensures Area(b) > 0.0
  {
  }

  lemma Divides(i: real, u: real)
    requires u > 0.0
    ensures (i / u) * u == i
  {
  }

  /** A box inside another overlaps it by the ratio of their areas, so that identical boxes overlap by 1; and
      boxes without a common point overlap by 0. */
  lemma IouOfSpecialCases(a: Box, b: Box)
    requires NonEmpty(a) && NonEmpty(b)
    ensures Union(a, b) > 0.0
    ensures b.x1 <= a.x1 && a.x2 <= b.x2 && b.y1 <= a.y1 && a.y2 <= b.y2 ==>
      Iou(a, b) == ((a.x2 - a.x1) * (a.y2 - a.y1)) / ((b.x2 - b.x1) * (b.y2 - b.y1))
    ensures a == b ==> Iou(a, b) == 1.0
    ensures (forall x, y :: !(Inside(a, x, y) && Inside(b, x, y))) ==> Iou(a, b) == 0.0
  {
    AreaPositive(a);
    AreaPositive(b);
    IouDefined(a, b, 0.0);
    if b.x1 <= a.x1 && a.x2 <= b.x2 && b.y1 <= a.y1 && a.y2 <= b.y2 {
      IntersectionIsCommonArea(a, b, a);
    }
    if forall x, y :: !(Inside(a, x, y) && Inside(b, x, y)) { DisjointIntersection(a, b); }
  }

  // ---------- the run ----------

  /** The candidates of `s` that survive `c`. */
  function Candidates(boxes: seq<Box>, s: seq<nat>, c: nat, threshold: real): (r: seq<nat>)
    requires Indices(s, |boxes|) && c < |boxes|
    ensures |r| <= |s| && Indices(r, |boxes|)
  {
    if s == [] then [] else
    var front := Candidates(boxes, s[..|s| - 1], c, threshold);
    var x := s[|s| - 1];
    if Survives(boxes[c], boxes[x], threshold) then front + [x] else front
  }

  /** The run without a limit: keep the best candidate, drop what it suppresses, go on. */
  function Unlimited(boxes: seq<Box>, s: seq<nat>, threshold: real): (r: seq<nat>)
    requires Indices(s, |boxes|)
    ensures |r| <= |s| && Indices(r, |boxes|) && (s != [] ==> r != [])
    decreases |s|
  {
    if s == [] then [] else
    [s[0]] + Unlimited(boxes, Candidates(boxes, s[1..], s[0], threshold), threshold)
  }

  /** The run stops once `maxDet` are kept, but looks only after keeping one. */
  function Limit(maxDet: int): nat {
    if maxDet < 1 then 1 else maxDet
  }

  function Take(s: seq<nat>, n: nat): seq<nat> {
    if |s| <= n then s else s[..n]
  }

  /** `order` lists all boxes by non-increasing score; among equal scores any order may come out of the sort. */
  ghost predicate IsOrder(order: seq<nat>, scores: seq<real>) {
    && |order| == |scores| && Indices(order, |scores|) && Distinct(order) && Sorted(scores, order)
  }

  /** Scores do not increase along `s`. */
  predicate Sorted(scores: seq<real>, s: seq<nat>)
    requires Indices(s, |scores|)
  {
    forall i, j :: 0 <= i < j < |s| ==> scores[s[i]] >= scores[s[j]]
  }

  /** The result is the prefix of the unlimited run that the limit allows. */
  method ApplyNms(boxes: seq<Box>, order: seq<nat>, threshold: real, maxDet: int) returns (keep: seq<nat>)
    requires Indices(order, |boxes|)
    ensures keep == Take(Unlimited(boxes, order, threshold), Limit(maxDet))
  {
    hide Candidates, Survives;
    var indices := order;
    keep := [];
    while indices != []
      invariant Indices(indices, |boxes|)
      invariant keep + Unlimited(boxes, indices, threshold) == Unlimited(boxes, order, threshold)
      invariant |keep| < Limit(maxDet)
      decreases |indices|
    {
      var current := indices[0];
      ghost var before := keep;
      keep := keep + [current];
      var rest := Candidates(boxes, indices[1..], current, threshold);
      Moved(before, current, Unlimited(boxes, rest, threshold));
      if |indices| == 1 {
        assert indices[1..] == [] && rest == [];
        break;
      }
      indices := rest;
      if |keep| >= maxDet {
        break;
      }
    }
  }

  lemma Moved(a: seq<nat>, x: nat, b: seq<nat>)
    ensures (a + [x]) + b == a + ([x] + b)
    ensures Take(a + ([x] + b), |a| + 1) == a + [x]
  {
  }

  // ---------- the simple form ----------

  predicate SurvivesAll(boxes: seq<Box>, kept: seq<nat>, x: nat, threshold: real)
    requires Indices(kept, |boxes|) && x < |boxes|
  {
    forall i :: 0 <= i < |kept| ==> Survives(boxes[kept[i]], boxes[x], threshold)
  }

  /** Scan the boxes in order and keep each one that no box kept so far suppresses. */
  function Scan(boxes: seq<Box>, s: seq<nat>, threshold: real): (r: seq<nat>)
    requires Indices(s, |boxes|)
    ensures Indices(r, |boxes|)
  {
    if s == [] then [] else
    var kept := Scan(boxes, s[..|s| - 1], threshold);
    var x := s[|s| - 1];
    if SurvivesAll(boxes, kept, x, threshold) then kept + [x] else kept
  }

  lemma CandidatesSnoc(boxes: seq<Box>, s: seq<nat>, x: nat, c: nat, threshold: real)
    requires Indices(s, |boxes|) && x < |boxes| && c < |boxes|
    ensures Candidates(boxes, s + [x], c, threshold)
         == Candidates(boxes, s, c, threshold) + (if Survives(boxes[c], boxes[x], threshold) then [x] else [])
  {
    assert (s + [x])[..|s|] == s;
  }

  lemma {:induction false} UnlimitedSnoc(boxes: seq<Box>, s: seq<nat>, x: nat, threshold: real)
    requires Indices(s, |boxes|) && x < |boxes|
    ensures var kept := Unlimited(boxes, s, threshold);
      Unlimited(boxes, s + [x], threshold) == kept + (if SurvivesAll(boxes, kept, x, threshold) then [x] else [])
    decreases |s|
  {
    hide Survives, Candidates;
    if s != [] {
      var c, rest := s[0], Candidates(boxes, s[1..], s[0], threshold);
      assert (s + [x])[1..] == s[1..] + [x];
      CandidatesSnoc(boxes, s[1..], x, c, threshold);
      if Survives(boxes[c], boxes[x], threshold) {
        UnlimitedSnoc(boxes, rest, x, threshold);
        SurvivesFirst(boxes, c, Unlimited(boxes, rest, threshold), x, threshold);
      } else {
        assert Unlimited(boxes, s, threshold)[0] == c;
        assert rest + [] == rest;
      }
    }
  }

  lemma SurvivesFirst(boxes: seq<Box>, c: nat, kept: seq<nat>, x: nat, threshold: real)
    requires Indices(kept, |boxes|) && x < |boxes| && c < |boxes| && Survives(boxes[c], boxes[x], threshold)
    ensures SurvivesAll(boxes, [c] + kept, x, threshold) == SurvivesAll(boxes, kept, x, threshold)
  {
    hide Survives;
    var all := [c] + kept;
    if SurvivesAll(boxes, all, x, threshold) {
      forall i | 0 <= i < |kept| ensures Survives(boxes[kept[i]], boxes[x], threshold) {
        assert all[i + 1] == kept[i];
      }
    }
  }

  /** Shrinking the candidate list after every kept box computes the same as scanning against all kept. */
  lemma {:induction false} UnlimitedIsScan(boxes: seq<Box>, s: seq<nat>, threshold: real)
    requires Indices(s, |boxes|)
    ensures Unlimited(boxes, s, threshold) == Scan(boxes, s, threshold)
  {
    hide Survives, Candidates;
    if s != [] {
      var front, x := s[..|s| - 1], s[|s| - 1];
      UnlimitedIsScan(boxes, front, threshold);
      UnlimitedSnoc(boxes, front, x, threshold);
      assert front + [x] == s;
    }
  }

  // ---------- what is kept ----------

  lemma {:induction false} ScanWithin(boxes: seq<Box>, s: seq<nat>, threshold: real)
    requires Indices(s, |boxes|) && Distinct(s)
    ensures Distinct(Scan(boxes, s, threshold))
    ensures forall i :: 0 <= i < |Scan(boxes, s, threshold)| ==> Scan(boxes, s, threshold)[i] in s
  {
    hide Survives, SurvivesAll;
    if s != [] {
      ScanWithin(boxes, s[..|s| - 1], threshold);
    }
  }

  /** Later boxes do not change what is kept among the earlier ones. */
  lemma EarlierUnchanged(boxes: seq<Box>, s: seq<nat>, threshold: real, j: nat)
    requires Indices(s, |boxes|) && Distinct(s) && j < |s| - 1
    ensures s[j] in Scan(boxes, s, threshold) <==> s[j] in Scan(boxes, s[..|s| - 1], threshold)
  {
    hide Survives, SurvivesAll;
    assert s[j] != s[|s| - 1];
  }

  /** Which boxes are kept: exactly those that no kept box of an earlier rank suppresses. */
  lemma {:induction false} KeptExactly(boxes: seq<Box>, s: seq<nat>, threshold: real, k: nat)
    requires Indices(s, |boxes|) && Distinct(s) && k < |s|
    ensures s[k] in Scan(boxes, s, threshold) <==>
      forall j :: 0 <= j < k && s[j] in Scan(boxes, s, threshold) ==> Survives(boxes[s[j]], boxes[s[k]], threshold)
  {
    hide Survives, Scan;
    var n := |s| - 1;
    var front := s[..n];
    forall j: nat | j < n ensures s[j] in Scan(boxes, s, threshold) <==> s[j] in Scan(boxes, front, threshold) {
      EarlierUnchanged(boxes, s, threshold, j);
    }
    if k < n {
      KeptExactly(boxes, front, threshold, k);
      assert forall j :: 0 <= j <= k ==> s[j] == front[j];
    } else {
      LastKept(boxes, s, threshold);
    }
  }

  lemma LastKept(boxes: seq<Box>, s: seq<nat>, threshold: real)
    requires Indices(s, |boxes|) && Distinct(s) && s != []
    ensures var n := |s| - 1; var kept := Scan(boxes, s[..n], threshold);
      s[n] in Scan(boxes, s, threshold) <==>
        forall j :: 0 <= j < n && s[j] in kept ==> Survives(boxes[s[j]], boxes[s[n]], threshold)
  {
    hide Survives;
    var n := |s| - 1;
    var front := s[..n];
    var kept := Scan(boxes, front, threshold);
    ScanWithin(boxes, front, threshold);
    assert s[n] !in kept by { assert s[n] !in front; }
    if forall j :: 0 <= j < n && s[j] in kept ==> Survives(boxes[s[j]], boxes[s[n]], threshold) {
      forall i | 0 <= i < |kept| ensures Survives(boxes[kept[i]], boxes[s[n]], threshold) {
        assert kept[i] in front;
      }
    }
  }

  /** A box that was dropped is suppressed by a kept box whose score is at least its own. */
  lemma DroppedIsSuppressed(boxes: seq<Box>, scores: seq<real>, order: seq<nat>, threshold: real, x: nat)
    returns (winner: nat)
    requires |boxes| == |scores| && IsOrder(order, scores) && x in order && x !in Unlimited(boxes, order, threshold)
    ensures winner < |boxes| && winner in Unlimited(boxes, order, threshold)
    ensures scores[winner] >= scores[x] && !Survives(boxes[winner], boxes[x], threshold)
  {
    hide Survives, Unlimited;
    UnlimitedIsScan(boxes, order, threshold);
    var k :| 0 <= k < |order| && order[k] == x;
    KeptExactly(boxes, order, threshold, k);
    var j :| 0 <= j < k && order[j] in Scan(boxes, order, threshold) && !Survives(boxes[order[j]], boxes[x], threshold);
    winner := order[j];
  }

  /** No listed box suppresses a later one. */
  predicate OneWay(boxes: seq<Box>, s: seq<nat>, threshold: real)
    requires Indices(s, |boxes|)
  {
    forall i, j :: 0 <= i < j < |s| ==> Survives(boxes[s[i]], boxes[s[j]], threshold)
  }

  lemma {:induction false} ScanSorted(boxes: seq<Box>, scores: seq<real>, s: seq<nat>, threshold: real)
    requires |boxes| == |scores| && Indices(s, |boxes|) && Distinct(s) && Sorted(scores, s)
    ensures Sorted(scores, Scan(boxes, s, threshold)) && OneWay(boxes, Scan(boxes, s, threshold), threshold)
  {
    hide Survives, SurvivesAll, OneWay, Sorted;
    if s != [] {
      var n := |s| - 1;
      var front := s[..n];
      SortedPrefix(scores, s);
      ScanSorted(boxes, scores, front, threshold);
      var kept := Scan(boxes, front, threshold);
      if SurvivesAll(boxes, kept, s[n], threshold) {
        ScanWithin(boxes, front, threshold);
        KeepOneMore(boxes, scores, s, kept, threshold);
      }
    } else {
      NothingSorted(boxes, scores, threshold);
    }
  }

  lemma NothingSorted(boxes: seq<Box>, scores: seq<real>, threshold: real)
    ensures Sorted(scores, []) && OneWay(boxes, [], threshold)
  {
  }

  lemma SortedPrefix(scores: seq<real>, s: seq<nat>)
    requires Indices(s, |scores|) && Distinct(s) && Sorted(scores, s) && s != []
    ensures Indices(s[..|s| - 1], |scores|) && Distinct(s[..|s| - 1]) && Sorted(scores, s[..|s| - 1])
  {
  }

  lemma KeepOneMore(boxes: seq<Box>, scores: seq<real>, s: seq<nat>, kept: seq<nat>, threshold: real)
    requires |boxes| == |scores| && Indices(s, |boxes|) && Indices(kept, |boxes|) && s != [] && Sorted(scores, s)
    requires forall i :: 0 <= i < |kept| ==> kept[i] in s[..|s| - 1]
    requires Sorted(scores, kept) && OneWay(boxes, kept, threshold) && SurvivesAll(boxes, kept, s[|s| - 1], threshold)
    ensures Sorted(scores, kept + [s[|s| - 1]]) && OneWay(boxes, kept + [s[|s| - 1]], threshold)
  {
    hide Survives;
    forall i | 0 <= i < |kept| ensures scores[kept[i]] >= scores[s[|s| - 1]] {
      var k :| 0 <= k < |s| - 1 && s[..|s| - 1][k] == kept[i];
      assert s[k] == kept[i];
    }
  }

  lemma TakeKeeps(boxes: seq<Box>, scores: seq<real>, all: seq<nat>, threshold: real, n: nat)
    requires |boxes| == |scores| && Indices(all, |boxes|) && Distinct(all) && Sorted(scores, all)
    requires OneWay(boxes, all, threshold)
    ensures Indices(Take(all, n), |boxes|) && Distinct(Take(all, n)) && |Take(all, n)| <= n
    ensures Sorted(scores, Take(all, n)) && OneWay(boxes, Take(all, n), threshold)
  {
    hide Survives;
  }

  /** The listed boxes alone. */
  function Listed(boxes: seq<Box>, s: seq<nat>): (r: seq<Box>)
    requires Indices(s, |boxes|)
    ensures |r| == |s|
  {
    seq(|s|, i requires 0 <= i < |s| => boxes[s[i]])
  }

  /** No box of the list suppresses another. */
  predicate Compatible(boxes: seq<Box>, threshold: real) {
    forall i, j :: 0 <= i < |boxes| && 0 <= j < |boxes| && i != j ==> Survives(boxes[i], boxes[j], threshold)
  }

  lemma OneWayIsBothWays(boxes: seq<Box>, s: seq<nat>, threshold: real)
    requires Indices(s, |boxes|) && OneWay(boxes, s, threshold)
    ensures Compatible(Listed(boxes, s), threshold)
  {
    hide Survives;
    var l := Listed(boxes, s);
    forall i, j | 0 <= i < |l| && 0 <= j < |l| && i != j ensures Survives(l[i], l[j], threshold) {
      SurvivesSymmetric(l[i], l[j], threshold);
    }
  }

  /** The result proper: distinct boxes by non-increasing score, none suppressing another in either
      direction, and no more than the limit, which is at least 1. */
  lemma KeptSpec(boxes: seq<Box>, scores: seq<real>, order: seq<nat>, threshold: real, maxDet: int)
    requires |boxes| == |scores| && IsOrder(order, scores)
    ensures var keep := Take(Unlimited(boxes, order, threshold), Limit(maxDet));
      && Indices(keep, |boxes|) && Distinct(keep) && |keep| <= Limit(maxDet)
      && Sorted(scores, keep) && Compatible(Listed(boxes, keep), threshold)
  {
    hide Survives, Unlimited, Scan, OneWay, Compatible, Sorted, Distinct, Indices, Take;
    UnlimitedIsScan(boxes, order, threshold);
    ScanWithin(boxes, order, threshold);
    ScanSorted(boxes, scores, order, threshold);
    TakeKeeps(boxes, scores, Scan(boxes, order, threshold), threshold, Limit(maxDet));
    OneWayIsBothWays(boxes, Take(Scan(boxes, order, threshold), Limit(maxDet)), threshold);
  }

  /** The limit is respected exactly when it is positive or there is nothing to keep. */
  lemma LimitRespectedExactly(boxes: seq<Box>, order: seq<nat>, threshold: real, maxDet: int)
    requires Indices(order, |boxes|)
    ensures |Take(Unlimited(boxes, order, threshold), Limit(maxDet))| <= maxDet <==>
      maxDet >= 1 || (order == [] && maxDet == 0)
  {
  }

  lemma BothKept(boxes: seq<Box>, scores: seq<real>, order: seq<nat>, threshold: real, x: nat, y: nat)
    requires |boxes| == |scores| && IsOrder(order, scores) && x != y
    requires x in Unlimited(boxes, order, threshold) && y in Unlimited(boxes, order, threshold)
    ensures x < |boxes| && y < |boxes| && Survives(boxes[x], boxes[y], threshold)
  {
    hide Survives, Unlimited;
    var all := Unlimited(boxes, order, threshold);
    KeptSpec(boxes, scores, order, threshold, |all|);
    var i :| 0 <= i < |all| && all[i] == x;
    var j :| 0 <= j < |all| && all[j] == y;
    var l := Listed(boxes, all);
    assert l[i] == boxes[x] && l[j] == boxes[y];
  }

  /** For boxes of positive area, in terms of overlaps alone. */
  lemma PositiveAreas(boxes: seq<Box>, scores: seq<real>, order: seq<nat>, threshold: real, x: nat, y: nat)
    requires |boxes| == |scores| && IsOrder(order, scores)
    requires forall i :: 0 <= i < |boxes| ==> Area(boxes[i]) > 0.0
    requires x in order && y in order && x != y
    ensures Union(boxes[x], boxes[y]) > 0.0
    ensures x in Unlimited(boxes, order, threshold) && y in Unlimited(boxes, order, threshold) ==>
      Iou(boxes[x], boxes[y]) < threshold
    ensures x !in Unlimited(boxes, order, threshold) ==>
      exists winner: nat ::
        winner < |boxes| && winner in Unlimited(boxes, order, threshold) && scores[winner] >= scores[x]
        && Union(boxes[winner], boxes[x]) > 0.0 && Iou(boxes[winner], boxes[x]) >= threshold
  {
    hide Survives, Unlimited, Area, Union, Iou;
    IouDefined(boxes[x], boxes[y], threshold);
    var all := Unlimited(boxes, order, threshold);
    if x in all && y in all {
      BothKept(boxes, scores, order, threshold, x, y);
    }
    if x !in all {
      var winner := DroppedIsSuppressed(boxes, scores, order, threshold, x);
      IouDefined(boxes[winner], boxes[x], threshold);
    }
  }

  // ---------- running again ----------

  lemma {:induction false} CompatibleAllKept(boxes: seq<Box>, s: seq<nat>, threshold: real)
    requires Compatible(boxes, threshold) && Indices(s, |boxes|) && Distinct(s)
    ensures Scan(boxes, s, threshold) == s
  {
    hide Survives;
    if s != [] {
      var front := s[..|s| - 1];
      CompatibleAllKept(boxes, front, threshold);
      assert front + [s[|s| - 1]] == s;
    }
  }

  function ListedScores(scores: seq<real>, s: seq<nat>): (r: seq<real>)
    requires Indices(s, |scores|)
    ensures |r| == |s|
  {
    seq(|s|, i requires 0 <= i < |s| => scores[s[i]])
  }

  /** Running again on the kept boxes, whatever order their ties come out in, keeps them all. */
  lemma RerunKeepsAll(boxes: seq<Box>, scores: seq<real>, order: seq<nat>, threshold: real, maxDet: int,
                      keep: seq<nat>, again: seq<nat>)
    requires |boxes| == |scores| && IsOrder(order, scores)
    requires keep == Take(Unlimited(boxes, order, threshold), Limit(maxDet)) && Indices(keep, |boxes|)
    requires IsOrder(again, ListedScores(scores, keep))
    ensures Take(Unlimited(Listed(boxes, keep), again, threshold), Limit(maxDet)) == again
  {
    hide Survives, Unlimited, Scan, Compatible, Sorted, Distinct, Indices, Listed, ListedScores;
    KeptSpec(boxes, scores, order, threshold, maxDet);
    CompatibleAllKept(Listed(boxes, keep), again, threshold);
    UnlimitedIsScan(Listed(boxes, keep), again, threshold);
  }
}
