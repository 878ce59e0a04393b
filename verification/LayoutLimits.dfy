/** Acyclic graphs whose layout the bound cuts short. */
module LayoutLimits {
  import opened Sequences
  import opened GraphLayout
  import opened LayoutBound

  // ---------- an output listed many times ----------

  /** `a` lists its one successor `b` twelve times, and `b` feeds `c`. */
  function Repeated(a: Id, b: Id, c: Id): seq<NodeConfig> {
    [NodeConfig(a, seq(12, i => b)), NodeConfig(b, [c]), NodeConfig(c, [])]
  }

  function RepeatedGraph(a: Id, b: Id, c: Id): Graph {
    map[a := seq(12, i => b), b := [c], c := []]
  }

  lemma {:induction false} KnownAll(outputs: seq<Id>, ids: seq<Id>)
    requires forall i :: 0 <= i < |outputs| ==> outputs[i] in ids
    ensures Known(outputs, ids) == outputs
  {
    if outputs != [] { KnownAll(outputs[..|outputs| - 1], ids); }
  }

  lemma OutputsSnoc(nodes: seq<NodeConfig>, last: NodeConfig, ids: seq<Id>)
    requires forall i :: 0 <= i < |last.outputs| ==> last.outputs[i] in ids
    ensures OutputsOf(nodes + [last], ids) == OutputsOf(nodes, ids)[last.id := last.outputs]
  {
    assert (nodes + [last])[..|nodes|] == nodes;
    KnownAll(last.outputs, ids);
  }

  lemma RepeatedGraphIs(a: Id, b: Id, c: Id)
    requires a != b && b != c && a != c
    ensures Ids(Repeated(a, b, c)) == [a, b, c] && GraphOf(Repeated(a, b, c)) == RepeatedGraph(a, b, c)
  {
    hide OutputsOf, Known;
    var nodes, ids := Repeated(a, b, c), [a, b, c];
    assert Ids(nodes) == ids;
    OutputsSnoc([], nodes[0], ids);
    OutputsSnoc([nodes[0]], nodes[1], ids);
    OutputsSnoc([nodes[0], nodes[1]], nodes[2], ids);
    assert [] + [nodes[0]] == [nodes[0]] && [nodes[0]] + [nodes[1]] == [nodes[0], nodes[1]];
    assert [nodes[0], nodes[1]] + [nodes[2]] == nodes;
    NoOutputs(ids);
  }

  lemma NoOutputs(ids: seq<Id>)
    ensures OutputsOf([], ids) == map[]
  {
  }

  lemma RootsSnoc(ids: seq<Id>, last: Id, incoming: set<Id>)
    ensures Roots(ids + [last], incoming) == Roots(ids, incoming) + (if last in incoming then [] else [last])
  {
    assert (ids + [last])[..|ids|] == ids;
    assert Roots(ids, incoming) + [] == Roots(ids, incoming);
  }

  lemma RepeatedEdges(a: Id, b: Id, c: Id, v: Id, t: Id)
    requires a != b && b != c && a != c
    ensures Edge(RepeatedGraph(a, b, c), v, t) <==> (v == a && t == b) || (v == b && t == c)
  {
    var g := RepeatedGraph(a, b, c);
    assert g[a][0] == b && g[b][0] == c;
  }

  lemma RepeatedRoots(a: Id, b: Id, c: Id)
    requires a != b && b != c && a != c
    ensures RootsOf(Repeated(a, b, c)) == [a]
  {
    hide OutputsOf, HasIncoming, Edge, RepeatedGraph, Roots;
    var g := RepeatedGraph(a, b, c);
    RepeatedGraphIs(a, b, c);
    var incoming := HasIncoming(g);
    forall v, t ensures Edge(g, v, t) <==> (v == a && t == b) || (v == b && t == c) { RepeatedEdges(a, b, c, v, t); }
    assert Edge(g, a, b) && Edge(g, b, c);
    RootsSnoc([], a, incoming);
    RootsSnoc([a], b, incoming);
    RootsSnoc([a, b], c, incoming);
    assert [] + [a] == [a] && [a] + [b] == [a, b] && [a, b] + [c] == [a, b, c];
    NoRoots(incoming);
  }

  lemma NoRoots(incoming: set<Id>)
    ensures Roots([], incoming) == []
  {
  }

  /** The bound is reached while reading the repetitions: `c` is two edges from the root and still put in
      layer 0, although the graph has no cycle. */
  lemma BoundMayCutShort(a: Id, b: Id, c: Id)
    requires a != b && b != c && a != c
    ensures var nodes := Repeated(a, b, c); var g, roots := GraphOf(nodes), RootsOf(nodes);
      && Ranked(g, v => if v == a then 0 else if v == b then 1 else 2, |nodes|)
      && Attained(g, roots, c, 2) && LayerOf(Final(nodes).layer, c) == 0
  {
    hide OutputsOf, Roots, HasIncoming, RepeatedGraph, Final, Edge, Run;
    var g := RepeatedGraph(a, b, c);
    RepeatedGraphIs(a, b, c);
    RepeatedRoots(a, b, c);
    forall v, t ensures Edge(g, v, t) <==> (v == a && t == b) || (v == b && t == c) { RepeatedEdges(a, b, c, v, t); }
    assert PathTo(g, [a], c, [a, b, c]);
    CutShort(a, b, c);
  }

  lemma CutShort(a: Id, b: Id, c: Id)
    requires a != b && b != c && a != c
    ensures c !in Final(Repeated(a, b, c)).layer
  {
    hide OutputsOf, Roots, HasIncoming, Relax, Run;
    var g, w := RepeatedGraph(a, b, c), Start([a]);
    RepeatedGraphIs(a, b, c);
    RepeatedRoots(a, b, c);
    assert MaxSteps(3) == 12 && TargetsOf(g, a) == g[a] && LayerOf(w.layer, a) == 0;
    RunStep(g, w, 12);
    RelaxCounts(w.(head := 1), 0, g[a]);
    RelaxGrows(w.(head := 1), 0, g[a]);
    RunStop(g, Pop(g, w), 12);
  }

  // ---------- more than eight nodes ----------

  /** `ids[hi - 1]`, ..., `ids[lo]`: from the last one down. */
  function Downto(ids: seq<Id>, hi: nat, lo: nat): (d: seq<Id>)
    requires hi <= |ids|
    ensures |d| == if lo < hi then hi - lo else 0
    ensures forall k :: 0 <= k < |d| ==> d[k] == ids[hi - 1 - k]
  {
    if lo >= hi then [] else seq(hi - lo, k requires 0 <= k < hi - lo => ids[hi - 1 - k])
  }

  lemma DowntoLast(ids: seq<Id>, hi: nat, lo: nat)
    requires lo < hi <= |ids|
    ensures Downto(ids, hi, lo) == Downto(ids, hi, lo + 1) + [ids[lo]]
  {
  }

  lemma DowntoFirst(ids: seq<Id>, hi: nat, lo: nat)
    requires lo < hi <= |ids|
    ensures Downto(ids, hi, lo) == [ids[hi - 1]] + Downto(ids, hi - 1, lo)
  {
  }

  /** Every node feeds all later ones and lists the last of them first. */
  function Dense(ids: seq<Id>): (nodes: seq<NodeConfig>)
    ensures |nodes| == |ids| && forall i :: 0 <= i < |ids| ==>
      nodes[i].id == ids[i] && nodes[i].outputs == Downto(ids, |ids|, i + 1)
  {
    seq(|ids|, i requires 0 <= i < |ids| => NodeConfig(ids[i], Downto(ids, |ids|, i + 1)))
  }

  lemma {:induction false} OutputsAt(nodes: seq<NodeConfig>, ids: seq<Id>, i: nat)
    requires Distinct(Ids(nodes)) && i < |nodes|
    requires forall k :: 0 <= k < |nodes[i].outputs| ==> nodes[i].outputs[k] in ids
    ensures var g := OutputsOf(nodes, ids); nodes[i].id in g && g[nodes[i].id] == nodes[i].outputs
  {
    hide Known;
    var n := |nodes| - 1;
    if i == n {
      KnownAll(nodes[i].outputs, ids);
    } else {
      assert Ids(nodes)[i] != Ids(nodes)[n];
      assert Ids(nodes[..n]) == Ids(nodes)[..n];
      OutputsAt(nodes[..n], ids, i);
    }
  }

  /** The graph of `ids`, each feeding all later ones. */
  ghost predicate DenseGraph(g: Graph, ids: seq<Id>) {
    && Distinct(ids) && (forall v :: v in g ==> v in ids)
    && forall i :: 0 <= i < |ids| ==> ids[i] in g && g[ids[i]] == Downto(ids, |ids|, i + 1)
  }

  lemma DenseGraphIs(ids: seq<Id>)
    requires Distinct(ids)
    ensures Ids(Dense(ids)) == ids && DenseGraph(GraphOf(Dense(ids)), ids)
  {
    hide OutputsOf;
    var nodes := Dense(ids);
    assert Ids(nodes) == ids;
    forall i | 0 <= i < |ids|
      ensures ids[i] in GraphOf(nodes) && GraphOf(nodes)[ids[i]] == Downto(ids, |ids|, i + 1)
    {
      OutputsAt(nodes, ids, i);
    }
  }

  ghost predicate Before(ids: seq<Id>, a: Id, b: Id) {
    exists i, j :: 0 <= i < j < |ids| && a == ids[i] && b == ids[j]
  }

  lemma DenseEdgeClimbs(g: Graph, ids: seq<Id>, a: Id, b: Id)
    requires DenseGraph(g, ids) && Edge(g, a, b)
    ensures Before(ids, a, b)
  {
    var i :| 0 <= i < |ids| && a == ids[i];
    var k :| 0 <= k < |g[a]| && g[a][k] == b;
    assert b == ids[|ids| - 1 - k];
  }

  lemma DenseEdge(g: Graph, ids: seq<Id>, i: nat, j: nat)
    requires DenseGraph(g, ids) && i < j < |ids|
    ensures Edge(g, ids[i], ids[j])
  {
    assert g[ids[i]][|ids| - 1 - j] == ids[j];
  }

  lemma {:induction false} FirstIsRoot(ids: seq<Id>, incoming: set<Id>)
    requires ids != [] && forall i :: 0 <= i < |ids| ==> (ids[i] in incoming <==> i > 0)
    ensures Roots(ids, incoming) == [ids[0]]
  {
    var n := |ids| - 1;
    if n == 0 {
      assert ids[..0] == [] && Roots([], incoming) == [];
    } else {
      FirstIsRoot(ids[..n], incoming);
    }
  }

  lemma DenseRoots(ids: seq<Id>)
    requires Distinct(ids) && ids != []
    ensures RootsOf(Dense(ids)) == [ids[0]]
  {
    hide OutputsOf, HasIncoming, Edge, Dense, DenseGraph;
    DenseGraphIs(ids);
    var g := GraphOf(Dense(ids));
    forall i | 0 <= i < |ids| ensures ids[i] in HasIncoming(g) <==> i > 0 {
      forall a | Edge(g, a, ids[i]) ensures Before(ids, a, ids[i]) { DenseEdgeClimbs(g, ids, a, ids[i]); }
      if i > 0 { DenseEdge(g, ids, 0, i); }
    }
    FirstIsRoot(ids, HasIncoming(g));
  }

  /** The layer of the node at place `i` in round `r`, when those from `u` down to `r` are still to be read. */
  function Height(i: nat, r: nat, u: nat): nat {
    if i < r then i else if i <= u then r else r + 1
  }

  /** The edges looked at by then. */
  function Spent(n: nat, r: nat, u: nat): nat
    requires 0 < r <= u <= n
    decreases r, n - u
  {
    if u < n then Spent(n, r, u + 1) + (n - u - 1)
    else if r == 1 then n - 1
    else Spent(n, r - 1, r - 1)
  }

  /** A moment of the run: the next node to be read is the one at place `u - 1`, in round `r`. */
  ghost predicate At(ids: seq<Id>, w: Work, r: nat, u: nat) {
    && 0 < r < u <= |ids| && w.head <= |w.queue|
    && (forall i :: 0 <= i < |ids| ==> ids[i] in w.layer && w.layer[ids[i]] == Height(i, r, u))
    && w.queue[w.head..] == Downto(ids, u, r) + Downto(ids, |ids|, u + 1)
    && w.steps == Spent(|ids|, r, u)
  }

  lemma {:induction false} RelaxIdle(w: Work, current: nat, targets: seq<Id>)
    requires forall i :: 0 <= i < |targets| ==> targets[i] in w.layer && w.layer[targets[i]] > current
    ensures Relax(w, current, targets) == w.(steps := w.steps + |targets|)
  {
    if targets != [] { RelaxIdle(w, current, targets[..|targets| - 1]); }
  }

  /** A visit raises exactly the next node up. */
  lemma DenseVisit(g: Graph, ids: seq<Id>, w: Work, r: nat, u: nat)
    requires DenseGraph(g, ids) && At(ids, w, r, u)
    ensures w.head < |w.queue| && w.queue[w.head] == ids[u - 1]
    ensures w.queue[w.head + 1..] == Downto(ids, u - 1, r) + Downto(ids, |ids|, u + 1)
    ensures Pop(g, w) ==
      if u == |ids| then w.(head := w.head + 1)
      else Work(w.layer[ids[u] := r + 1], w.queue + [ids[u]], w.head + 1, w.steps + (|ids| - u))
  {
    hide Downto, Spent, Relax;
    var n := |ids|;
    DowntoFirst(ids, u, r);
    FirstUnread(w.queue, w.head, ids[u - 1], Downto(ids, u - 1, r), Downto(ids, n, u + 1));
    assert w.layer[ids[u - 1]] == r;
    assert TargetsOf(g, ids[u - 1]) == Downto(ids, n, u);
    var b := w.(head := w.head + 1);
    if u == n {
      RelaxIdle(b, r, Downto(ids, n, u));
    } else {
      var higher := Downto(ids, n, u + 1);
      forall k | 0 <= k < |higher| ensures higher[k] in w.layer && w.layer[higher[k]] > r {
        assert higher[k] == ids[n - 1 - k];
      }
      DowntoLast(ids, n, u);
      RelaxIdle(b, r, higher);
      RelaxLast(b, r, higher, ids[u]);
    }
  }

  lemma RelaxLast(w: Work, current: nat, targets: seq<Id>, last: Id)
    ensures Relax(w, current, targets + [last]) == Look(Relax(w, current, targets), current, last)
  {
    assert (targets + [last])[..|targets|] == targets;
  }

  lemma FirstUnread(queue: seq<Id>, head: nat, first: Id, a: seq<Id>, b: seq<Id>)
    requires head <= |queue| && queue[head..] == ([first] + a) + b
    ensures head < |queue| && queue[head] == first && queue[head + 1..] == a + b
  {
    assert queue[head] == queue[head..][0];
    assert queue[head + 1..] == queue[head..][1..];
  }

  /** After it the run is at the next moment of the round, or at the start of the next round. */
  lemma DenseMoves(g: Graph, ids: seq<Id>, w: Work, r: nat, u: nat)
    requires DenseGraph(g, ids) && At(ids, w, r, u) && r + 1 < |ids|
    ensures if u - 1 > r then At(ids, Pop(g, w), r, u - 1) else At(ids, Pop(g, w), r + 1, |ids|)
  {
    hide Downto, Pop, Spent, DenseGraph;
    var n, b := |ids|, Pop(g, w);
    DenseVisit(g, ids, w, r, u);
    UnreadMoves(ids, w, b, r, u);
    SpentMoves(n, r, u);
    forall i | 0 <= i < n ensures ids[i] in b.layer && b.layer[ids[i]] == Height(i, r, u - 1) {
      DistinctIn(g, ids, i, u);
    }
  }

  lemma DistinctIn(g: Graph, ids: seq<Id>, i: nat, u: nat)
    requires DenseGraph(g, ids) && i < |ids| && u <= |ids|
    ensures u < |ids| && i != u ==> ids[i] != ids[u]
  {
  }

  lemma SpentMoves(n: nat, r: nat, u: nat)
    requires 0 < r < u <= n && r + 1 < n
    ensures Spent(n, r, u - 1) == Spent(n, r, u) + (n - u)
    ensures u - 1 == r ==> Spent(n, r + 1, n) == Spent(n, r, r)
  {
  }

  lemma UnreadMoves(ids: seq<Id>, w: Work, b: Work, r: nat, u: nat)
    requires 0 < r < u <= |ids| && w.head < |w.queue|
    requires w.queue[w.head + 1..] == Downto(ids, u - 1, r) + Downto(ids, |ids|, u + 1)
    requires b.head == w.head + 1 && b.queue == if u == |ids| then w.queue else w.queue + [ids[u]]
    ensures b.head <= |b.queue| && b.queue[b.head..] == Downto(ids, u - 1, r) + Downto(ids, |ids|, u)
    ensures u - 1 == r ==> b.queue[b.head..] == Downto(ids, |ids|, r + 1) + Downto(ids, |ids|, |ids| + 1)
  {
    var n := |ids|;
    if u < n {
      DowntoLast(ids, n, u);
      assert b.queue[b.head..] == w.queue[w.head + 1..] + [ids[u]];
    }
    assert Downto(ids, n, n) == [] == Downto(ids, n, n + 1) == Downto(ids, n, n + 2);
    assert u - 1 == r ==> Downto(ids, u - 1, r) == [];
  }

  /** What the rounds before `r` have cost: sums of triangular numbers. */
  lemma {:induction false} SpentBefore(n: nat, r: nat, u: nat)
    requires 0 < r <= u <= n
    ensures 2 * Spent(n, r, u) == 2 * Spent(n, r, n) + (n - u) * (n - u - 1)
    decreases n - u
  {
    if u < n {
      SpentBefore(n, r, u + 1);
      var k := n - u - 1;
      assert k * (k - 1) + 2 * k == (k + 1) * k;
    }
  }

  lemma {:induction false} SpentRounds(n: nat, r: nat)
    requires 0 < r <= n
    ensures 6 * Spent(n, r, n) == 6 * (n - 1) + n * (n - 1) * (n - 2) - Cubic(n - r)
    decreases r
  {
    if r == 1 {
      assert Cubic(n - 1) == n * (n - 1) * (n - 2);
    } else {
      SpentRounds(n, r - 1);
      SpentBefore(n, r - 1, r - 1);
      CubicStep(n - r);
    }
  }

  function Cubic(m: int): int {
    (m + 1) * m * (m - 1)
  }

  lemma CubicStep(m: nat)
    ensures Cubic(m + 1) == Cubic(m) + 3 * ((m + 1) * m)
  {
    var t := (m + 1) * m;
    assert Cubic(m) == t * (m - 1);
    assert Cubic(m + 1) == (m + 2) * t;
    assert (m + 2) * t == t * (m - 1) + 3 * t;
  }

  /** From nine nodes on the bound is reached before the last layer is. */
  lemma NineNodes(n: nat)
    requires n >= 9
    ensures Spent(n, n - 2, n - 1) >= MaxSteps(n)
  {
    SpentRounds(n, n - 2);
    SpentBefore(n, n - 2, n - 1);
    assert Cubic(2) == 6;
    assert n * (n - 1) * (n - 2) == n * n * n - 3 * (n * n) + 2 * n;
    assert n * n * n >= 9 * (n * n) by { TimesGrows(9, n, n * n); }
  }

  /** The run stops while the last node is not yet in its layer. */
  lemma {:induction false} StopsEarly(g: Graph, ids: seq<Id>, w: Work, r: nat, u: nat)
    requires DenseGraph(g, ids) && |ids| >= 9 && At(ids, w, r, u)
    requires r < |ids| - 2 || (r == |ids| - 2 && u >= |ids| - 1)
    ensures
      var f, last := Run(g, w, MaxSteps(|ids|)), ids[|ids| - 1];
      last in f.layer && f.layer[last] < |ids| - 1
    decreases |ids| - r, u
  {
    hide DenseGraph, Run, Pop, MaxSteps, Spent, Downto;
    var n := |ids|;
    DenseVisit(g, ids, w, r, u);
    if w.steps >= MaxSteps(n) {
      RunStop(g, w, MaxSteps(n));
      assert w.layer[ids[n - 1]] == Height(n - 1, r, u);
    } else {
      if r == n - 2 && u == n - 1 { NineNodes(n); }
      DenseMoves(g, ids, w, r, u);
      RunStep(g, w, MaxSteps(n));
      if u - 1 > r { StopsEarly(g, ids, Pop(g, w), r, u - 1); } else { StopsEarly(g, ids, Pop(g, w), r + 1, n); }
    }
  }

  /** Reading the root puts all others in layer 1, the last one first. */
  lemma {:induction false} RootVisit(ids: seq<Id>, w: Work, lo: nat)
    requires Distinct(ids) && 0 < lo <= |ids| && w == Work(map[ids[0] := 0], [ids[0]], 1, 0)
    ensures var n, b := |ids|, Relax(w, 0, Downto(ids, |ids|, lo));
      && b.head == 1 && b.queue == [ids[0]] + Downto(ids, n, lo) && b.steps == n - lo
      && forall i :: 0 <= i < n ==>
        (ids[i] in b.layer <==> i == 0 || i >= lo) && (ids[i] in b.layer ==> b.layer[ids[i]] == if i == 0 then 0 else 1)
    decreases |ids| - lo
  {
    hide Relax, Downto;
    var n := |ids|;
    if lo == n {
      RelaxNone(w, 0, Downto(ids, n, n));
      assert Downto(ids, n, n)[..0] == Downto(ids, n, n) == [];
    } else {
      RootVisit(ids, w, lo + 1);
      DowntoLast(ids, n, lo);
      RelaxLast(w, 0, Downto(ids, n, lo + 1), ids[lo]);
      assert [ids[0]] + Downto(ids, n, lo) == [ids[0]] + Downto(ids, n, lo + 1) + [ids[lo]];
    }
  }

  lemma DenseStarts(g: Graph, ids: seq<Id>)
    requires DenseGraph(g, ids) && |ids| > 1
    ensures At(ids, Pop(g, Start([ids[0]])), 1, |ids|)
  {
    hide Relax;
    var n, w := |ids|, Start([ids[0]]);
    assert w.layer == map[ids[0] := 0] && TargetsOf(g, ids[0]) == Downto(ids, n, 1);
    RootVisit(ids, Work(map[ids[0] := 0], [ids[0]], 1, 0), 1);
    var b := Pop(g, w);
    assert b.queue[1..] == Downto(ids, n, 1) + Downto(ids, n, n + 1);
  }

  lemma DensePath(ids: seq<Id>)
    requires Distinct(ids) && ids != []
    ensures Attained(GraphOf(Dense(ids)), RootsOf(Dense(ids)), ids[|ids| - 1], |ids| - 1)
  {
    hide Dense, RootsOf, GraphOf, DenseGraph, Edge;
    DenseGraphIs(ids);
    DenseRoots(ids);
    AllInOnePath(GraphOf(Dense(ids)), ids);
  }

  lemma AllInOnePath(g: Graph, ids: seq<Id>)
    requires DenseGraph(g, ids) && ids != []
    ensures Attained(g, [ids[0]], ids[|ids| - 1], |ids| - 1)
  {
    hide DenseGraph, Edge;
    var n := |ids|;
    forall i | 0 <= i < n - 1 ensures Edge(g, ids[i], ids[i + 1]) { DenseEdge(g, ids, i, i + 1); }
    assert PathTo(g, [ids[0]], ids[n - 1], ids);
  }

  lemma DenseRun(ids: seq<Id>)
    requires Distinct(ids) && |ids| > 8
    ensures
      var layer, last := Final(Dense(ids)).layer, ids[|ids| - 1];
      last in layer && layer[last] < |ids| - 1
  {
    hide Run, Dense, Pop, OutputsOf, Roots, HasIncoming, At, Downto, DenseGraph;
    var g, w, n := GraphOf(Dense(ids)), Start([ids[0]]), |ids|;
    DenseGraphIs(ids);
    DenseRoots(ids);
    DenseStarts(g, ids);
    RunStep(g, w, MaxSteps(n));
    StopsEarly(g, ids, Pop(g, w), 1, n);
  }

  /** For every number of nodes above eight there is an acyclic graph without repeated outputs whose
      layout the bound cuts short: its last node has a path through all others and is put further left. */
  lemma DenseIsCutShort(ids: seq<Id>)
    requires Distinct(ids) && |ids| > 8
    ensures Ids(Dense(ids)) == ids && Simple(GraphOf(Dense(ids))) && !ReachesCycle(Dense(ids))
    ensures Attained(GraphOf(Dense(ids)), RootsOf(Dense(ids)), ids[|ids| - 1], |ids| - 1)
    ensures LayerOf(Final(Dense(ids)).layer, ids[|ids| - 1]) < |ids| - 1
  {
    hide Dense, RootsOf, GraphOf, Final, ReachesCycle, DenseGraph, Simple, Attained;
    DenseGraphIs(ids);
    DensePath(ids);
    DenseAcyclic(Dense(ids), ids);
    DenseRun(ids);
  }

  lemma DenseAcyclic(nodes: seq<NodeConfig>, ids: seq<Id>)
    requires DenseGraph(GraphOf(nodes), ids)
    ensures Simple(GraphOf(nodes)) && !ReachesCycle(nodes)
  {
    hide GraphOf, Edge, Reached;
    var g := GraphOf(nodes);
    forall v, c ensures !Cycle(g, v, c) {
      if Cycle(g, v, c) { CycleClimbs(g, ids, c); }
    }
  }

  lemma CycleClimbs(g: Graph, ids: seq<Id>, c: seq<Id>)
    requires DenseGraph(g, ids) && |c| > 1 && forall i :: 0 <= i < |c| - 1 ==> Edge(g, c[i], c[i + 1])
    ensures c[0] != c[|c| - 1]
  {
    hide DenseGraph;
    forall a, b | Edge(g, a, b) ensures Place(ids, a) < Place(ids, b) {
      DenseEdgeClimbs(g, ids, a, b);
      var i, j :| 0 <= i < j < |ids| && a == ids[i] && b == ids[j];
      DensePlaces(g, ids, i);
      DensePlaces(g, ids, j);
    }
    for k := 1 to |c| - 1
      invariant Place(ids, c[0]) < Place(ids, c[k])
    {
      assert Edge(g, c[k], c[k + 1]);
    }
  }

  lemma DensePlaces(g: Graph, ids: seq<Id>, i: nat)
    requires DenseGraph(g, ids) && i < |ids|
    ensures Place(ids, ids[i]) == i
  {
    PlaceIs(ids, i);
  }
}
