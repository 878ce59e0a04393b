/** Left-to-right layout of the pipeline graph: a worklist assigns every node its longest distance from a
    root, under a bound on the number of edges looked at. */
module GraphLayout {

  import opened Sequences

  type Id = string

  datatype NodeConfig = NodeConfig(id: Id, outputs: seq<Id>)

  datatype Position = Position(id: Id, x: int, y: int)

  const LAYER_WIDTH := 220
  const ROW_HEIGHT := 100

  // ---------- the graph ----------

  type Graph = map<Id, seq<Id>>

  function Ids(nodes: seq<NodeConfig>): (ids: seq<Id>)
    ensures |ids| == |nodes|
  {
    seq(|nodes|, i requires 0 <= i < |nodes| => nodes[i].id)
  }

  function Known(outputs: seq<Id>, ids: seq<Id>): (r: seq<Id>)
    ensures forall i :: 0 <= i < |r| ==> r[i] in ids
  {
    if outputs == [] then [] else
    var front := Known(outputs[..|outputs| - 1], ids);
    var last := outputs[|outputs| - 1];
    if last in ids then front + [last] else front
  }

  /** Outputs by node id, without unknown ids. Of nodes with the same id the last one counts. */
  function OutputsOf(nodes: seq<NodeConfig>, ids: seq<Id>): (g: Graph)
    ensures forall v :: v in g <==> exists i :: 0 <= i < |nodes| && nodes[i].id == v
    ensures forall v, i :: v in g && 0 <= i < |g[v]| ==> g[v][i] in ids
  {
    if nodes == [] then map[] else
    var last := nodes[|nodes| - 1];
    OutputsOf(nodes[..|nodes| - 1], ids)[last.id := Known(last.outputs, ids)]
  }

  predicate Edge(g: Graph, a: Id, b: Id) {
    a in g && b in g[a]
  }

  function HasIncoming(g: Graph): (s: set<Id>)
    ensures forall b :: b in s <==> exists a :: Edge(g, a, b)
  {
    var s := set a, i | a in g && 0 <= i < |g[a]| :: g[a][i];
    assert forall a, b :: Edge(g, a, b) ==> b in s;
    assert forall b :: b in s ==> exists a :: Edge(g, a, b) by {
      assert forall a, i :: a in g && 0 <= i < |g[a]| ==> Edge(g, a, g[a][i]);
    }
    s
  }

  function Roots(ids: seq<Id>, incoming: set<Id>): (r: seq<Id>)
    ensures forall v :: v in r <==> v in ids && v !in incoming
  {
    if ids == [] then [] else
    var front := Roots(ids[..|ids| - 1], incoming);
    var last := ids[|ids| - 1];
    if last in incoming then front else front + [last]
  }

  // ---------- the worklist ----------

  datatype Work = Work(layer: map<Id, nat>, queue: seq<Id>, head: nat, steps: nat)

  /** One look at an edge into `target` from a node of layer `current`. */
  function Look(w: Work, current: nat, target: Id): Work {
    if target !in w.layer || current + 1 > w.layer[target]
    then Work(w.layer[target := current + 1], w.queue + [target], w.head, w.steps + 1)
    else w.(steps := w.steps + 1)
  }

  function Relax(w: Work, current: nat, targets: seq<Id>): Work {
    if targets == [] then w
    else Look(Relax(w, current, targets[..|targets| - 1]), current, targets[|targets| - 1])
  }

  function LayerOf(layer: map<Id, nat>, v: Id): nat {
    if v in layer then layer[v] else 0
  }

  function TargetsOf(g: Graph, v: Id): seq<Id> {
    if v in g then g[v] else []
  }

  function Pop(g: Graph, w: Work): (r: Work)
    requires w.head < |w.queue|
  {
    var id := w.queue[w.head];
    Relax(w.(head := w.head + 1), LayerOf(w.layer, id), TargetsOf(g, id))
  }

  /** What one visit does to queue and counters. */
  lemma {:induction false} RelaxCounts(w: Work, current: nat, targets: seq<Id>)
    ensures var r := Relax(w, current, targets);
      r.head == w.head && r.steps == w.steps + |targets| && w.queue <= r.queue && |r.queue| <= |w.queue| + |targets|
  {
    if targets != [] { RelaxCounts(w, current, targets[..|targets| - 1]); }
  }

  function Left(w: Work, maxSteps: nat): nat {
    if w.steps < maxSteps then maxSteps - w.steps else 0
  }

  /** The loop terminates: a visit looks at an edge, or shortens the unread part of the queue. */
  function Run(g: Graph, w: Work, maxSteps: nat): (r: Work)
    requires w.head <= |w.queue|
    decreases Left(w, maxSteps), |w.queue| - w.head
  {
    if w.head < |w.queue| && w.steps < maxSteps then
      RelaxCounts(w.(head := w.head + 1), LayerOf(w.layer, w.queue[w.head]), TargetsOf(g, w.queue[w.head]));
      Run(g, Pop(g, w), maxSteps)
    else w
  }

  function Zero(roots: seq<Id>): map<Id, nat> {
    map v | v in roots :: 0
  }

  function Start(roots: seq<Id>): Work {
    Work(Zero(roots), roots, 0, 0)
  }

  function MaxSteps(n: nat): nat {
    n * n + n
  }

  function Final(nodes: seq<NodeConfig>): Work {
    var ids := Ids(nodes);
    var g := OutputsOf(nodes, ids);
    Run(g, Start(Roots(ids, HasIncoming(g))), MaxSteps(|ids|))
  }

  lemma RunStep(g: Graph, w: Work, maxSteps: nat)
    requires w.head < |w.queue| && w.steps < maxSteps
    ensures Pop(g, w).head <= |Pop(g, w).queue| && Left(Pop(g, w), maxSteps) <= Left(w, maxSteps)
    ensures Left(Pop(g, w), maxSteps) == Left(w, maxSteps) ==> |Pop(g, w).queue| - Pop(g, w).head < |w.queue| - w.head
    ensures Run(g, w, maxSteps) == Run(g, Pop(g, w), maxSteps)
  {
    RelaxCounts(w.(head := w.head + 1), LayerOf(w.layer, w.queue[w.head]), TargetsOf(g, w.queue[w.head]));
  }

  lemma RunStop(g: Graph, w: Work, maxSteps: nat)
    requires w.head <= |w.queue| && !(w.head < |w.queue| && w.steps < maxSteps)
    ensures Run(g, w, maxSteps) == w
  {
  }

  lemma RelaxNext(w: Work, current: nat, targets: seq<Id>, j: nat)
    requires j < |targets|
    ensures Relax(w, current, targets[..j + 1]) == Look(Relax(w, current, targets[..j]), current, targets[j])
  {
    assert targets[..j + 1][..j] == targets[..j];
  }

  predicate Exhausted(w: Work) {
    w.head == |w.queue|
  }

  // ---------- the methods ----------

  method AssignLayers(nodes: seq<NodeConfig>) returns (layer: map<Id, nat>)
    ensures layer == Final(nodes).layer
  {
    hide Run, Relax, Pop, HasIncoming, OutputsOf, Roots, MaxSteps;
    var ids := Ids(nodes);
    var g := OutputsOf(nodes, ids);
    var queue := Roots(ids, HasIncoming(g));
    layer := map[];
    for i := 0 to |queue|
      invariant layer == Zero(queue[..i])
    {
      layer := layer[queue[i] := 0];
    }
    assert queue[..|queue|] == queue;
    var maxSteps := MaxSteps(|ids|);
    ghost var w := Start(queue);
    var head, steps := 0, 0;
    while head < |queue| && steps < maxSteps
      invariant w == Work(layer, queue, head, steps) && head <= |queue|
      invariant Run(g, w, maxSteps) == Final(nodes)
      decreases Left(w, maxSteps), |queue| - head
    {
      RunStep(g, w, maxSteps);
      var id := queue[head];
      head := head + 1;
      var current := LayerOf(layer, id);
      var targets := TargetsOf(g, id);
      ghost var before := w.(head := head);
      RelaxNone(before, current, targets);
      for j := 0 to |targets|
        invariant Work(layer, queue, head, steps) == Relax(before, current, targets[..j])
      {
        RelaxNext(before, current, targets, j);
        var target := targets[j];
        if target !in layer || current + 1 > layer[target] {
          layer := layer[target := current + 1];
          queue := queue + [target];
        }
        steps := steps + 1;
      }
      assert targets[..|targets|] == targets;
      PopIs(g, w);
      w := Pop(g, w);
    }
    RunStop(g, w, maxSteps);
  }

  lemma RelaxNone(w: Work, current: nat, targets: seq<Id>)
    ensures Relax(w, current, targets[..0]) == w
  {
  }

  lemma PopIs(g: Graph, w: Work)
    requires w.head < |w.queue|
    ensures var id := w.queue[w.head];
      Pop(g, w) == Relax(w.(head := w.head + 1), LayerOf(w.layer, id), TargetsOf(g, id))
  {
  }

  /** How many of the first `n` nodes are in layer `l`. */
  function Above(nodes: seq<NodeConfig>, layer: map<Id, nat>, n: nat, l: nat): nat
    requires n <= |nodes|
  {
    if n == 0 then 0 else Above(nodes, layer, n - 1, l) + (if LayerOf(layer, nodes[n - 1].id) == l then 1 else 0)
  }

  lemma {:induction false} AboveGrows(nodes: seq<NodeConfig>, layer: map<Id, nat>, i: nat, n: nat, l: nat)
    requires i < n <= |nodes| && LayerOf(layer, nodes[i].id) == l
    ensures Above(nodes, layer, i, l) < Above(nodes, layer, n, l)
  {
    if i < n - 1 { AboveGrows(nodes, layer, i, n - 1, l); }
  }

  /** The layer across, and down as many rows as there are earlier nodes in that layer. */
  predicate Placed(nodes: seq<NodeConfig>, layer: map<Id, nat>, i: nat, p: Position)
    requires i < |nodes|
  {
    var l := LayerOf(layer, nodes[i].id);
    p == Position(nodes[i].id, l * 220, Above(nodes, layer, i, l) * 100)
  }

  function RowOf(rows: map<nat, nat>, l: nat): nat {
    if l in rows then rows[l] else 0
  }

  ghost predicate RowsCount(nodes: seq<NodeConfig>, layer: map<Id, nat>, n: nat, rows: map<nat, nat>)
    requires n <= |nodes|
  {
    forall l: nat :: RowOf(rows, l) == Above(nodes, layer, n, l)
  }

  lemma RowsNext(nodes: seq<NodeConfig>, layer: map<Id, nat>, n: nat, rows: map<nat, nat>)
    requires n < |nodes| && RowsCount(nodes, layer, n, rows)
    ensures var l := LayerOf(layer, nodes[n].id);
      RowOf(rows, l) == Above(nodes, layer, n, l) && RowsCount(nodes, layer, n + 1, rows[l := RowOf(rows, l) + 1])
  {
    var l := LayerOf(layer, nodes[n].id);
    var after := rows[l := RowOf(rows, l) + 1];
    forall m: nat ensures RowOf(after, m) == Above(nodes, layer, n + 1, m) {
      assert RowOf(rows, m) == Above(nodes, layer, n, m);
    }
  }

  lemma NoRows(nodes: seq<NodeConfig>, layer: map<Id, nat>)
    ensures RowsCount(nodes, layer, 0, map[])
  {
  }

  /** One position per node, in order, each at its place. */
  method LayoutNodes(nodes: seq<NodeConfig>) returns (positions: seq<Position>)
    ensures |positions| == |nodes|
    ensures forall i :: 0 <= i < |nodes| ==> Placed(nodes, Final(nodes).layer, i, positions[i])
  {
    hide Final, RowsCount, Above, LayerOf;
    var layer := AssignLayers(nodes);
    ghost var found := layer;
    for i := 0 to |nodes|
      invariant forall v :: LayerOf(layer, v) == LayerOf(found, v)
    {
      if nodes[i].id !in layer {
        ZeroIsDefault(layer, nodes[i].id);
        layer := layer[nodes[i].id := 0];
      }
    }
    var rowInLayer: map<nat, nat> := map[];
    positions := [];
    NoRows(nodes, found);
    for i := 0 to |nodes|
      invariant |positions| == i
      invariant RowsCount(nodes, found, i, rowInLayer)
      invariant forall k :: 0 <= k < i ==> Placed(nodes, found, k, positions[k])
    {
      RowsNext(nodes, found, i, rowInLayer);
      var l := LayerOf(layer, nodes[i].id);
      var row := RowOf(rowInLayer, l);
      rowInLayer := rowInLayer[l := row + 1];
      positions := positions + [Position(nodes[i].id, l * LAYER_WIDTH, row * ROW_HEIGHT)];
    }
  }

  lemma ZeroIsDefault(layer: map<Id, nat>, id: Id)
    requires id !in layer
    ensures forall v :: LayerOf(layer[id := 0], v) == LayerOf(layer, v)
  {
  }

  /** No two nodes are at the same place, whatever the layers. */
  lemma PlacesDiffer(nodes: seq<NodeConfig>, layer: map<Id, nat>, i: nat, j: nat)
    requires i < j < |nodes|
    ensures
      var a, b := LayerOf(layer, nodes[i].id), LayerOf(layer, nodes[j].id);
      || a * LAYER_WIDTH != b * LAYER_WIDTH
      || Above(nodes, layer, i, a) * ROW_HEIGHT < Above(nodes, layer, j, b) * ROW_HEIGHT
  {
    var a, b := LayerOf(layer, nodes[i].id), LayerOf(layer, nodes[j].id);
    if a == b { AboveGrows(nodes, layer, i, j, a); }
  }

  // ---------- longest paths ----------

  /** A path from a root. */
  ghost predicate Path(g: Graph, roots: seq<Id>, p: seq<Id>) {
    && p != [] && p[0] in roots
    && forall i :: 0 <= i < |p| - 1 ==> Edge(g, p[i], p[i + 1])
  }

  ghost predicate PathTo(g: Graph, roots: seq<Id>, v: Id, p: seq<Id>) {
    Path(g, roots, p) && p[|p| - 1] == v
  }

  ghost predicate Reached(g: Graph, roots: seq<Id>, v: Id) {
    exists p :: PathTo(g, roots, v, p)
  }

  ghost predicate Attained(g: Graph, roots: seq<Id>, v: Id, n: nat) {
    exists p :: PathTo(g, roots, v, p) && |p| - 1 == n
  }

  /** Some path from a root to `v` has `n` edges, and none has more. */
  ghost predicate Longest(g: Graph, roots: seq<Id>, v: Id, n: nat) {
    Attained(g, roots, v, n) && forall p :: PathTo(g, roots, v, p) ==> |p| - 1 <= n
  }

  // ---------- what every visit keeps ----------

  /** All edges out of `v` go strictly right. */
  ghost predicate Settled(g: Graph, layer: map<Id, nat>, v: Id) {
    v in layer && forall t :: Edge(g, v, t) ==> t in layer && layer[t] > layer[v]
  }

  ghost predicate Sound(g: Graph, roots: seq<Id>, w: Work) {
    && w.head <= |w.queue|
    && (forall i :: 0 <= i < |w.queue| ==> w.queue[i] in w.layer)
    && (forall i :: 0 <= i < |roots| ==> roots[i] in w.layer)
    && (forall v :: v in w.layer ==> Attained(g, roots, v, w.layer[v]))
    && (forall v :: v in w.layer ==> v in w.queue[w.head..] || Settled(g, w.layer, v))
  }

  /** What a visit changes: layers only grow, and only of targets, which are then in the queue again. */
  ghost predicate Grown(a: Work, b: Work, current: nat, targets: seq<Id>) {
    && b.head == a.head && a.queue <= b.queue
    && (forall v :: v in a.layer ==> v in b.layer && b.layer[v] >= a.layer[v])
    && (forall v :: v in b.layer && (v !in a.layer || b.layer[v] != a.layer[v]) ==>
          v in targets && b.layer[v] == current + 1 && v in b.queue[|a.queue|..])
    && (forall i :: 0 <= i < |targets| ==> targets[i] in b.layer && b.layer[targets[i]] >= current + 1)
    && (forall i :: |a.queue| <= i < |b.queue| ==> b.queue[i] in b.layer)
  }

  lemma {:induction false} RelaxGrows(w: Work, current: nat, targets: seq<Id>)
    ensures Grown(w, Relax(w, current, targets), current, targets)
  {
    if targets != [] {
      var n := |targets| - 1;
      RelaxGrows(w, current, targets[..n]);
      LookGrows(w, Relax(w, current, targets[..n]), current, targets[..n], targets[n]);
      assert targets[..n] + [targets[n]] == targets;
    }
  }

  lemma LookGrows(a: Work, b: Work, current: nat, targets: seq<Id>, target: Id)
    requires Grown(a, b, current, targets)
    ensures Grown(a, Look(b, current, target), current, targets + [target])
  {
    var c := Look(b, current, target);
    assert b.queue[|a.queue|..] <= c.queue[|a.queue|..];
    if c.queue != b.queue {
      assert c.queue[|c.queue| - 1] == target;
      assert target in c.queue[|a.queue|..] by { assert c.queue[|a.queue|..][|b.queue| - |a.queue|] == target; }
    }
  }

  lemma ExtendPath(g: Graph, roots: seq<Id>, a: Id, b: Id, n: nat)
    requires Attained(g, roots, a, n) && Edge(g, a, b)
    ensures Attained(g, roots, b, n + 1)
  {
    var p :| PathTo(g, roots, a, p) && |p| - 1 == n;
    var q := p + [b];
    assert PathTo(g, roots, b, q);
  }

  /** `b` comes from `w` by a visit to the node at the head of the queue. */
  ghost predicate Visited(g: Graph, w: Work, b: Work) {
    && w.head < |w.queue| && w.queue[w.head] in w.layer
    && Grown(w.(head := w.head + 1), b, w.layer[w.queue[w.head]], TargetsOf(g, w.queue[w.head]))
  }

  lemma VisitAttains(g: Graph, roots: seq<Id>, w: Work, b: Work, v: Id)
    requires Sound(g, roots, w) && Visited(g, w, b) && v in b.layer
    ensures Attained(g, roots, v, b.layer[v])
  {
    hide Attained;
    var id := w.queue[w.head];
    if v !in w.layer || b.layer[v] != w.layer[v] { ExtendPath(g, roots, id, v, w.layer[id]); }
  }

  lemma VisitQueue(g: Graph, w: Work, b: Work)
    requires Visited(g, w, b)
    ensures |w.queue| <= |b.queue| && b.head <= |b.queue|
    ensures w.queue[w.head..] == [w.queue[w.head]] + w.queue[b.head..]
    ensures b.queue[b.head..] == w.queue[b.head..] + b.queue[|w.queue|..]
  {
  }

  lemma VisitSettles(g: Graph, roots: seq<Id>, w: Work, b: Work, v: Id)
    requires Sound(g, roots, w) && Visited(g, w, b) && v in b.layer
    ensures v in b.queue[b.head..] || Settled(g, b.layer, v)
  {
    hide Attained;
    VisitQueue(g, w, b);
    var id := w.queue[w.head];
    if v !in b.queue[b.head..] {
      assert v in w.layer && b.layer[v] == w.layer[v];
      if v == id {
        forall t | Edge(g, v, t) ensures t in b.layer && b.layer[t] > b.layer[v] { assert t in TargetsOf(g, id); }
      } else {
        assert Settled(g, w.layer, v);
      }
    }
  }

  lemma VisitListed(g: Graph, roots: seq<Id>, w: Work, b: Work, i: nat)
    requires Sound(g, roots, w) && Visited(g, w, b) && i < |b.queue|
    ensures b.queue[i] in b.layer
  {
    hide Attained, Settled;
    if i < |w.queue| { assert b.queue[i] == w.queue[i]; }
  }

  lemma VisitRoots(g: Graph, roots: seq<Id>, w: Work, b: Work, i: nat)
    requires Sound(g, roots, w) && Visited(g, w, b) && i < |roots|
    ensures roots[i] in b.layer
  {
    hide Attained, Settled;
  }

  lemma VisitKeeps(g: Graph, roots: seq<Id>, w: Work, b: Work)
    requires Sound(g, roots, w) && Visited(g, w, b)
    ensures Sound(g, roots, b)
  {
    hide Attained, Settled, Visited;
    VisitQueue(g, w, b);
    forall v | v in b.layer ensures Attained(g, roots, v, b.layer[v]) { VisitAttains(g, roots, w, b, v); }
    forall v | v in b.layer
      ensures v in b.queue[b.head..] || Settled(g, b.layer, v)
    {
      VisitSettles(g, roots, w, b, v);
    }
    forall i | 0 <= i < |b.queue| ensures b.queue[i] in b.layer { VisitListed(g, roots, w, b, i); }
    forall i | 0 <= i < |roots| ensures roots[i] in b.layer { VisitRoots(g, roots, w, b, i); }
  }

  lemma PopKeeps(g: Graph, roots: seq<Id>, w: Work)
    requires Sound(g, roots, w) && w.head < |w.queue|
    ensures Visited(g, w, Pop(g, w)) && Sound(g, roots, Pop(g, w))
  {
    hide Attained, Settled, Grown, Relax;
    var id := w.queue[w.head];
    RelaxGrows(w.(head := w.head + 1), w.layer[id], TargetsOf(g, id));
    VisitKeeps(g, roots, w, Pop(g, w));
  }

  lemma {:induction false} RunKeeps(g: Graph, roots: seq<Id>, w: Work, maxSteps: nat)
    requires Sound(g, roots, w)
    ensures Sound(g, roots, Run(g, w, maxSteps))
    decreases Left(w, maxSteps), |w.queue| - w.head
  {
    hide Sound, Run;
    InQueue(g, roots, w);
    if w.head < |w.queue| && w.steps < maxSteps {
      RunStep(g, w, maxSteps);
      PopKeeps(g, roots, w);
      RunKeeps(g, roots, Pop(g, w), maxSteps);
    } else {
      RunStop(g, w, maxSteps);
    }
  }

  lemma InQueue(g: Graph, roots: seq<Id>, w: Work)
    requires Sound(g, roots, w)
    ensures w.head <= |w.queue|
  {
  }

  lemma StartSound(g: Graph, roots: seq<Id>)
    ensures Sound(g, roots, Start(roots))
  {
    var w := Start(roots);
    forall v | v in w.layer ensures Attained(g, roots, v, w.layer[v]) {
      assert PathTo(g, roots, v, [v]);
    }
    assert w.queue[0..] == roots;
  }

  /** Once all are settled, no path is longer than the layer of its end. */
  lemma {:induction false} PathBounded(g: Graph, roots: seq<Id>, w: Work, p: seq<Id>)
    requires Sound(g, roots, w) && Exhausted(w) && Path(g, roots, p)
    ensures p[|p| - 1] in w.layer && |p| - 1 <= w.layer[p[|p| - 1]]
  {
    hide Attained;
    if |p| > 1 {
      var n := |p| - 1;
      var front := p[..n];
      assert Path(g, roots, front);
      PathBounded(g, roots, w, front);
      assert w.queue[w.head..] == [];
      assert Settled(g, w.layer, p[n - 1]);
      assert Edge(g, p[n - 1], p[n]);
    }
  }

  // ---------- the graph and the bound are the documented ones ----------

  function GraphOf(nodes: seq<NodeConfig>): Graph {
    OutputsOf(nodes, Ids(nodes))
  }

  function RootsOf(nodes: seq<NodeConfig>): seq<Id> {
    Roots(Ids(nodes), HasIncoming(GraphOf(nodes)))
  }

  lemma {:induction false} KnownExactly(outputs: seq<Id>, ids: seq<Id>, t: Id)
    ensures t in Known(outputs, ids) <==> t in outputs && t in ids
  {
    if outputs != [] {
      KnownExactly(outputs[..|outputs| - 1], ids, t);
      assert outputs == outputs[..|outputs| - 1] + [outputs[|outputs| - 1]];
    }
  }

  lemma {:induction false} OutputsExactly(nodes: seq<NodeConfig>, ids: seq<Id>, i: nat, t: Id)
    requires Distinct(Ids(nodes)) && i < |nodes|
    ensures nodes[i].id in OutputsOf(nodes, ids)
    ensures t in OutputsOf(nodes, ids)[nodes[i].id] <==> t in nodes[i].outputs && t in ids
  {
    hide Known;
    var n := |nodes| - 1;
    KnownExactly(nodes[n].outputs, ids, t);
    if i < n {
      assert Ids(nodes)[i] != Ids(nodes)[n];
      assert Ids(nodes[..n]) == Ids(nodes)[..n];
      OutputsExactly(nodes[..n], ids, i, t);
    }
  }

  /** There is an edge from a node to each of its outputs that is itself a node, and the roots are the nodes no
      edge leads to. */
  lemma GraphExactly(nodes: seq<NodeConfig>, i: nat, t: Id)
    requires Distinct(Ids(nodes)) && i < |nodes|
    ensures Edge(GraphOf(nodes), nodes[i].id, t) <==> t in nodes[i].outputs && t in Ids(nodes)
    ensures t in RootsOf(nodes) <==> t in Ids(nodes) && !exists a :: Edge(GraphOf(nodes), a, t)
  {
    OutputsExactly(nodes, Ids(nodes), i, t);
  }

  /** The run goes on as long as there is something to read and fewer edges than `maxSteps` were looked at. */
  lemma {:induction false} RunGoesOn(g: Graph, w: Work, maxSteps: nat)
    requires w.head <= |w.queue|
    ensures var f := Run(g, w, maxSteps); w.head <= f.head <= |f.queue|
    ensures var f := Run(g, w, maxSteps); f.head == |f.queue| || f.steps >= maxSteps
    ensures var f := Run(g, w, maxSteps);
      f.head > w.head ==> f.steps < maxSteps + |TargetsOf(g, f.queue[f.head - 1])|
    decreases Left(w, maxSteps), |w.queue| - w.head
  {
    hide Run;
    if w.head < |w.queue| && w.steps < maxSteps {
      RunStep(g, w, maxSteps);
      RunGoesOn(g, Pop(g, w), maxSteps);
      RelaxCounts(w.(head := w.head + 1), LayerOf(w.layer, w.queue[w.head]), TargetsOf(g, w.queue[w.head]));
      if Run(g, w, maxSteps).head == w.head + 1 {
        RunKeepsQueue(g, Pop(g, w), maxSteps);
        StoppedAt(g, Pop(g, w), maxSteps);
      }
    } else {
      RunStop(g, w, maxSteps);
    }
  }

  lemma {:induction false} RunKeepsQueue(g: Graph, w: Work, maxSteps: nat)
    requires w.head <= |w.queue|
    ensures w.queue <= Run(g, w, maxSteps).queue
    decreases Left(w, maxSteps), |w.queue| - w.head
  {
    hide Run;
    if w.head < |w.queue| && w.steps < maxSteps {
      RunStep(g, w, maxSteps);
      RelaxCounts(w.(head := w.head + 1), LayerOf(w.layer, w.queue[w.head]), TargetsOf(g, w.queue[w.head]));
      RunKeepsQueue(g, Pop(g, w), maxSteps);
    } else {
      RunStop(g, w, maxSteps);
    }
  }

  /** A run that reads nothing has not moved. */
  lemma StoppedAt(g: Graph, w: Work, maxSteps: nat)
    requires w.head <= |w.queue| && Run(g, w, maxSteps).head == w.head
    ensures Run(g, w, maxSteps) == w
  {
    hide Run;
    if w.head < |w.queue| && w.steps < maxSteps {
      RunStep(g, w, maxSteps);
      RelaxCounts(w.(head := w.head + 1), LayerOf(w.layer, w.queue[w.head]), TargetsOf(g, w.queue[w.head]));
      RunGoesForward(g, Pop(g, w), maxSteps);
    } else {
      RunStop(g, w, maxSteps);
    }
  }

  lemma {:induction false} RunGoesForward(g: Graph, w: Work, maxSteps: nat)
    requires w.head <= |w.queue|
    ensures w.head <= Run(g, w, maxSteps).head
    decreases Left(w, maxSteps), |w.queue| - w.head
  {
    hide Run;
    if w.head < |w.queue| && w.steps < maxSteps {
      RunStep(g, w, maxSteps);
      RelaxCounts(w.(head := w.head + 1), LayerOf(w.layer, w.queue[w.head]), TargetsOf(g, w.queue[w.head]));
      RunGoesForward(g, Pop(g, w), maxSteps);
    } else {
      RunStop(g, w, maxSteps);
    }
  }

  /** With `n` nodes the loop ends when the queue is read or `n * n + n` edges have been looked at, and not
      before: the last visit began below that bound. */
  lemma BoundIsExact(nodes: seq<NodeConfig>)
    ensures var w, n := Final(nodes), |nodes|;
      && w.head <= |w.queue| && (Exhausted(w) || w.steps >= n * n + n)
      && (w.head > 0 ==> w.steps < n * n + n + |TargetsOf(GraphOf(nodes), w.queue[w.head - 1])|)
  {
    hide Run;
    RunGoesOn(GraphOf(nodes), Start(RootsOf(nodes)), MaxSteps(|nodes|));
  }

  // ---------- when the queue runs empty ----------

  lemma FinalSound(nodes: seq<NodeConfig>)
    ensures Sound(GraphOf(nodes), RootsOf(nodes), Final(nodes))
  {
    hide Sound, Run, MaxSteps;
    StartSound(GraphOf(nodes), RootsOf(nodes));
    RunKeeps(GraphOf(nodes), RootsOf(nodes), Start(RootsOf(nodes)), MaxSteps(|nodes|));
  }

  /** A layer is never more than the layout promises: some path from a root attains it. */
  lemma LayerAttained(nodes: seq<NodeConfig>, v: Id)
    requires v in Final(nodes).layer
    ensures Attained(GraphOf(nodes), RootsOf(nodes), v, Final(nodes).layer[v])
  {
    hide Attained, Final;
    FinalSound(nodes);
  }

  /** If the run ends with nothing left to read, the layers are exactly the longest distances from a root,
      and what no root reaches is in layer 0. */
  lemma LayersAreLongestPaths(nodes: seq<NodeConfig>, v: Id)
    requires Exhausted(Final(nodes))
    ensures var g, roots, layer := GraphOf(nodes), RootsOf(nodes), LayerOf(Final(nodes).layer, v);
      if Reached(g, roots, v) then Longest(g, roots, v, layer) else layer == 0
  {
    hide Final, Path;
    var g, roots, w := GraphOf(nodes), RootsOf(nodes), Final(nodes);
    FinalSound(nodes);
    forall p | PathTo(g, roots, v, p) ensures v in w.layer && |p| - 1 <= w.layer[v] {
      PathEnds(g, roots, v, p);
      PathBounded(g, roots, w, p);
    }
    if v in w.layer {
      LayerAttained(nodes, v);
    }
  }

  lemma PathEnds(g: Graph, roots: seq<Id>, v: Id, p: seq<Id>)
    requires PathTo(g, roots, v, p)
    ensures Path(g, roots, p) && p != [] && p[|p| - 1] == v
  {
  }

  /** Then every edge that a root reaches goes strictly right. */
  lemma EdgesGoRight(nodes: seq<NodeConfig>, a: Id, b: Id)
    requires Exhausted(Final(nodes)) && Reached(GraphOf(nodes), RootsOf(nodes), a) && Edge(GraphOf(nodes), a, b)
    ensures LayerOf(Final(nodes).layer, a) < LayerOf(Final(nodes).layer, b)
  {
    hide Final;
    var g, roots := GraphOf(nodes), RootsOf(nodes);
    LayersAreLongestPaths(nodes, a);
    LayersAreLongestPaths(nodes, b);
    var n := LayerOf(Final(nodes).layer, a);
    ExtendPath(g, roots, a, b, n);
    var p :| PathTo(g, roots, b, p) && |p| - 1 == n + 1;
  }

  /** A cycle through `v`. */
  ghost predicate Cycle(g: Graph, v: Id, c: seq<Id>) {
    |c| > 1 && c[0] == v && c[|c| - 1] == v && forall i :: 0 <= i < |c| - 1 ==> Edge(g, c[i], c[i + 1])
  }

  /** A reachable cycle is always stopped by the bound, never by an empty queue. */
  lemma CycleNeverExhausts(nodes: seq<NodeConfig>, v: Id, c: seq<Id>)
    requires Reached(GraphOf(nodes), RootsOf(nodes), v) && Cycle(GraphOf(nodes), v, c)
    ensures !Exhausted(Final(nodes))
  {
    hide Final;
    var g, roots := GraphOf(nodes), RootsOf(nodes);
    if Exhausted(Final(nodes)) {
      LayersAreLongestPaths(nodes, v);
      var p :| PathTo(g, roots, v, p) && |p| - 1 == LayerOf(Final(nodes).layer, v);
      AroundAgain(g, roots, v, p, c);
      assert false;
    }
  }

  lemma AroundAgain(g: Graph, roots: seq<Id>, v: Id, p: seq<Id>, c: seq<Id>)
    requires PathTo(g, roots, v, p) && Cycle(g, v, c)
    ensures PathTo(g, roots, v, p + c[1..]) && |p + c[1..]| > |p|
  {
    hide Edge;
    var q := p + c[1..];
    forall i | 0 <= i < |q| - 1 ensures Edge(g, q[i], q[i + 1]) {
      if i >= |p| - 1 {
        var k := i - (|p| - 1);
        assert q[i] == c[k] && q[i + 1] == c[k + 1];
      }
    }
  }
}
