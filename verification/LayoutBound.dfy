/** When the worklist runs empty: conditions on the graph that a caller can check. */
module LayoutBound {
  import opened Sequences
  import opened GraphLayout

  // ---------- counting queue entries ----------

  /** Edges listed at the nodes of `s`, repetitions included. */
  function EdgeCount(g: Graph, s: seq<Id>): nat {
    if s == [] then 0 else EdgeCount(g, s[..|s| - 1]) + |TargetsOf(g, s[|s| - 1])|
  }

  /** Edges counted with how often their source occurs in `m`. */
  function Weighted(g: Graph, ids: seq<Id>, m: multiset<Id>): nat {
    if ids == [] then 0 else
    var last := ids[|ids| - 1];
    Weighted(g, ids[..|ids| - 1], m) + m[last] * |TargetsOf(g, last)|
  }

  lemma {:induction false} WeightedAdd(g: Graph, ids: seq<Id>, m: multiset<Id>, x: Id)
    requires Distinct(ids)
    ensures Weighted(g, ids, m + multiset{x}) == Weighted(g, ids, m) + (if x in ids then |TargetsOf(g, x)| else 0)
  {
    if ids != [] {
      var front, last := ids[..|ids| - 1], ids[|ids| - 1];
      WeightedAdd(g, front, m, x);
      assert last !in front;
      assert x in ids <==> x in front || x == last;
      assert (m[last] + 1) * |TargetsOf(g, last)| == m[last] * |TargetsOf(g, last)| + |TargetsOf(g, last)|;
    }
  }

  lemma {:induction false} EdgeCountWeighted(g: Graph, ids: seq<Id>, s: seq<Id>)
    requires Distinct(ids) && forall i :: 0 <= i < |s| ==> s[i] in ids
    ensures EdgeCount(g, s) == Weighted(g, ids, multiset(s))
  {
    if s == [] {
      NothingWeighted(g, ids);
    } else {
      var front, last := s[..|s| - 1], s[|s| - 1];
      EdgeCountWeighted(g, ids, front);
      WeightedAdd(g, ids, multiset(front), last);
      assert s == front + [last];
    }
  }

  lemma {:induction false} NothingWeighted(g: Graph, ids: seq<Id>)
    ensures Weighted(g, ids, multiset{}) == 0
  {
    if ids != [] { NothingWeighted(g, ids[..|ids| - 1]); }
  }

  function AtLeastOne(n: nat): nat {
    if n == 0 then 1 else n
  }

  /** All edges of `ids`, each counted as often as its source can enter the queue under `rank`. */
  function Load(g: Graph, ids: seq<Id>, rank: Id -> nat): nat {
    if ids == [] then 0 else
    var last := ids[|ids| - 1];
    Load(g, ids[..|ids| - 1], rank) + AtLeastOne(rank(last)) * |TargetsOf(g, last)|
  }

  lemma TimesGrows(a: nat, b: nat, c: nat)
    requires a <= b
    ensures a * c <= b * c && c * a <= c * b
  {
  }

  lemma {:induction false} WeightedLoad(g: Graph, ids: seq<Id>, m: multiset<Id>, rank: Id -> nat)
    requires forall v :: m[v] <= AtLeastOne(rank(v))
    ensures Weighted(g, ids, m) <= Load(g, ids, rank)
  {
    hide AtLeastOne;
    if ids != [] {
      var front, last := ids[..|ids| - 1], ids[|ids| - 1];
      WeightedLoad(g, front, m, rank);
      TimesGrows(m[last], AtLeastOne(rank(last)), |TargetsOf(g, last)|);
    }
  }

  lemma {:induction false} LoadBound(g: Graph, ids: seq<Id>, rank: Id -> nat, k: nat)
    requires forall i :: 0 <= i < |ids| ==> AtLeastOne(rank(ids[i])) <= k
    ensures Load(g, ids, rank) <= k * EdgeCount(g, ids)
  {
    hide AtLeastOne;
    if ids != [] {
      var front, last := ids[..|ids| - 1], ids[|ids| - 1];
      LoadBound(g, front, rank, k);
      TimesGrows(AtLeastOne(rank(last)), k, |TargetsOf(g, last)|);
      Distributes(k, EdgeCount(g, front), |TargetsOf(g, last)|);
    }
  }

  lemma Distributes(k: nat, a: nat, b: nat)
    ensures k * (a + b) == k * a + k * b
  {
  }

  /** How often a node may have entered the queue: a root once, another node at most as often as its layer. */
  function Entries(roots: seq<Id>, w: Work, v: Id): nat {
    if v in roots then 1 else LayerOf(w.layer, v)
  }

  ghost predicate Counted(g: Graph, roots: seq<Id>, w: Work) {
    && w.head <= |w.queue|
    && (forall v :: multiset(w.queue)[v] <= Entries(roots, w, v))
    && w.steps == EdgeCount(g, w.queue[..w.head])
  }

  lemma LookEntries(roots: seq<Id>, w: Work, current: nat, target: Id)
    requires target !in roots && forall v :: multiset(w.queue)[v] <= Entries(roots, w, v)
    ensures forall v :: multiset(Look(w, current, target).queue)[v] <= Entries(roots, Look(w, current, target), v)
  {
  }

  lemma {:induction false} RelaxEntries(roots: seq<Id>, w: Work, current: nat, targets: seq<Id>)
    requires forall i :: 0 <= i < |targets| ==> targets[i] !in roots
    requires forall v :: multiset(w.queue)[v] <= Entries(roots, w, v)
    ensures forall v :: multiset(Relax(w, current, targets).queue)[v] <= Entries(roots, Relax(w, current, targets), v)
  {
    if targets != [] {
      var n := |targets| - 1;
      RelaxEntries(roots, w, current, targets[..n]);
      LookEntries(roots, Relax(w, current, targets[..n]), current, targets[n]);
    }
  }

  ghost predicate Rooted(g: Graph, roots: seq<Id>) {
    forall a, b :: Edge(g, a, b) ==> b !in roots
  }

  lemma TargetsAreNotRoots(g: Graph, roots: seq<Id>, id: Id)
    requires Rooted(g, roots)
    ensures forall i :: 0 <= i < |TargetsOf(g, id)| ==> TargetsOf(g, id)[i] !in roots
  {
    var targets := TargetsOf(g, id);
    forall i | 0 <= i < |targets| ensures targets[i] !in roots { assert Edge(g, id, targets[i]); }
  }

  lemma PopCounted(g: Graph, roots: seq<Id>, w: Work)
    requires Rooted(g, roots) && Counted(g, roots, w) && w.head < |w.queue|
    ensures Counted(g, roots, Pop(g, w))
  {
    hide Relax, Entries, Rooted;
    var id := w.queue[w.head];
    var a, current, targets := w.(head := w.head + 1), LayerOf(w.layer, id), TargetsOf(g, id);
    TargetsAreNotRoots(g, roots, id);
    forall v ensures multiset(a.queue)[v] <= Entries(roots, a, v) { SameEntries(roots, w, a, v); }
    RelaxEntries(roots, a, current, targets);
    RelaxCounts(a, current, targets);
    var b := Pop(g, w);
    assert b.queue[..b.head] == w.queue[..w.head] + [id];
    assert b.queue[..b.head][..w.head] == w.queue[..w.head];
  }

  lemma SameEntries(roots: seq<Id>, w: Work, a: Work, v: Id)
    requires w.layer == a.layer
    ensures Entries(roots, w, v) == Entries(roots, a, v)
  {
  }

  lemma {:induction false} RunCounted(g: Graph, roots: seq<Id>, w: Work, maxSteps: nat)
    requires Rooted(g, roots) && Counted(g, roots, w)
    ensures Counted(g, roots, Run(g, w, maxSteps))
    ensures Exhausted(Run(g, w, maxSteps)) || Run(g, w, maxSteps).steps >= maxSteps
    decreases Left(w, maxSteps), |w.queue| - w.head
  {
    hide Run, Entries;
    if w.head < |w.queue| && w.steps < maxSteps {
      RunStep(g, w, maxSteps);
      PopCounted(g, roots, w);
      RunCounted(g, roots, Pop(g, w), maxSteps);
    } else {
      RunStop(g, w, maxSteps);
    }
  }

  /** What a root reaches is ranked along its edges. */
  ghost predicate Rising(g: Graph, roots: seq<Id>, rank: Id -> nat) {
    forall a, b :: Reached(g, roots, a) && Edge(g, a, b) ==> rank(a) < rank(b)
  }

  lemma {:induction false} PathRank(g: Graph, roots: seq<Id>, rank: Id -> nat, p: seq<Id>)
    requires Rising(g, roots, rank) && Path(g, roots, p)
    ensures |p| - 1 <= rank(p[|p| - 1])
  {
    if |p| > 1 {
      var front := p[..|p| - 1];
      assert Path(g, roots, front);
      PathRank(g, roots, rank, front);
      assert PathTo(g, roots, p[|p| - 2], front);
      assert Edge(g, p[|p| - 2], p[|p| - 1]);
    }
  }

  lemma {:induction false} RootsDistinct(ids: seq<Id>, incoming: set<Id>, v: Id)
    requires Distinct(ids)
    ensures multiset(Roots(ids, incoming))[v] <= 1
  {
    if ids != [] {
      var front, last := ids[..|ids| - 1], ids[|ids| - 1];
      RootsDistinct(front, incoming, v);
      assert last !in Roots(front, incoming) by { assert last !in front; }
    }
  }

  lemma StartCounted(nodes: seq<NodeConfig>)
    requires Distinct(Ids(nodes))
    ensures Rooted(GraphOf(nodes), RootsOf(nodes)) && Counted(GraphOf(nodes), RootsOf(nodes), Start(RootsOf(nodes)))
  {
    var roots := RootsOf(nodes);
    forall v ensures multiset(roots)[v] <= Entries(roots, Start(roots), v) {
      RootsDistinct(Ids(nodes), HasIncoming(GraphOf(nodes)), v);
    }
  }

  lemma LayerInGraph(nodes: seq<NodeConfig>, v: Id)
    requires v in Final(nodes).layer
    ensures v in GraphOf(nodes) && v in Ids(nodes)
  {
    hide Final;
    var g, roots, ids := GraphOf(nodes), RootsOf(nodes), Ids(nodes);
    LayerAttained(nodes, v);
    var p :| PathTo(g, roots, v, p) && |p| - 1 == Final(nodes).layer[v];
    if |p| == 1 { assert v in roots; } else { assert Edge(g, p[|p| - 2], v); }
    var i :| 0 <= i < |ids| && ids[i] == v;
    assert nodes[i].id == v;
  }

  lemma EntriesBounded(nodes: seq<NodeConfig>, rank: Id -> nat, v: Id)
    requires Distinct(Ids(nodes)) && Rising(GraphOf(nodes), RootsOf(nodes), rank)
    ensures multiset(Final(nodes).queue)[v] <= AtLeastOne(rank(v))
  {
    hide Final, Run, Rising, MaxSteps;
    var g, roots, w := GraphOf(nodes), RootsOf(nodes), Final(nodes);
    FinalCounted(nodes);
    if v in w.layer {
      LayerAttained(nodes, v);
      var p :| PathTo(g, roots, v, p) && |p| - 1 == w.layer[v];
      PathRank(g, roots, rank, p);
    }
  }

  lemma FinalCounted(nodes: seq<NodeConfig>)
    requires Distinct(Ids(nodes))
    ensures Counted(GraphOf(nodes), RootsOf(nodes), Final(nodes))
    ensures Exhausted(Final(nodes)) || Final(nodes).steps >= MaxSteps(|nodes|)
  {
    hide Counted, Rooted, Run, MaxSteps;
    StartCounted(nodes);
    RunCounted(GraphOf(nodes), RootsOf(nodes), Start(RootsOf(nodes)), MaxSteps(|nodes|));
  }

  lemma {:induction false} PrefixCounts(s: seq<Id>, n: nat, v: Id)
    requires n <= |s|
    ensures multiset(s[..n])[v] <= multiset(s)[v]
  {
    assert s == s[..n] + s[n..];
    assert multiset(s) == multiset(s[..n]) + multiset(s[n..]);
  }

  /** If the load of everything the queue can hold is below the bound, the queue runs empty. */
  lemma LoadExhausts(nodes: seq<NodeConfig>, rank: Id -> nat, order: seq<Id>)
    requires Distinct(Ids(nodes)) && Rising(GraphOf(nodes), RootsOf(nodes), rank) && Distinct(order)
    requires forall i :: 0 <= i < |Final(nodes).queue| ==> Final(nodes).queue[i] in order
    requires Load(GraphOf(nodes), order, rank) < MaxSteps(|nodes|)
    ensures Exhausted(Final(nodes))
  {
    hide Final, Rising, MaxSteps, EdgeCount, Weighted, Load, Distinct, AtLeastOne;
    var g, w := GraphOf(nodes), Final(nodes);
    FinalCounted(nodes);
    var read := w.queue[..w.head];
    forall v ensures multiset(read)[v] <= AtLeastOne(rank(v)) {
      PrefixCounts(w.queue, w.head, v);
      EntriesBounded(nodes, rank, v);
    }
    EdgeCountWeighted(g, order, read);
    WeightedLoad(g, order, multiset(read), rank);
  }

  lemma QueueReached(nodes: seq<NodeConfig>, i: nat)
    requires i < |Final(nodes).queue|
    ensures Final(nodes).queue[i] in Ids(nodes) && Reached(GraphOf(nodes), RootsOf(nodes), Final(nodes).queue[i])
  {
    hide Final;
    FinalSound(nodes);
    LayerAttained(nodes, Final(nodes).queue[i]);
    LayerInGraph(nodes, Final(nodes).queue[i]);
  }

  /** Any acyclic graph is laid out in full if the load of a ranking is below the bound. */
  lemma LightAcyclicExhausts(nodes: seq<NodeConfig>, rank: Id -> nat)
    requires Distinct(Ids(nodes)) && Rising(GraphOf(nodes), RootsOf(nodes), rank)
    requires Load(GraphOf(nodes), Ids(nodes), rank) < MaxSteps(|nodes|)
    ensures Exhausted(Final(nodes))
  {
    hide Final, Rising, Load, MaxSteps, Distinct, Ids;
    var ids := Ids(nodes);
    forall i | 0 <= i < |Final(nodes).queue| ensures Final(nodes).queue[i] in ids { QueueReached(nodes, i); }
    LoadExhausts(nodes, rank, ids);
  }

  // ---------- few edges ----------

  /** An acyclic graph, witnessed by a ranking of all its nodes. */
  ghost predicate Ranked(g: Graph, rank: Id -> nat, n: nat) {
    && (forall a, b :: Edge(g, a, b) ==> rank(a) < rank(b))
    && (forall v :: v in g ==> rank(v) < n)
  }

  lemma LoneNode(nodes: seq<NodeConfig>, rank: Id -> nat)
    requires |nodes| == 1 && Ranked(GraphOf(nodes), rank, 1)
    ensures EdgeCount(GraphOf(nodes), Ids(nodes)) == 0
  {
    var g, ids := GraphOf(nodes), Ids(nodes);
    var v := ids[0];
    assert nodes[0].id == v && v in g;
    var targets := TargetsOf(g, v);
    if targets != [] {
      assert targets[0] in ids;
      assert Edge(g, v, targets[0]);
      assert false;
    }
    assert ids[..0] == [];
  }

  lemma FewEdges(n: nat, k: nat, e: nat)
    requires e <= n + 2 && n > 0 && (k == n - 1 || (k == 1 && n == 1 && e == 0))
    ensures k * e < MaxSteps(n)
  {
    TimesGrows(e, n + 2, k);
    if k == n - 1 {
      assert (n - 1) * (n + 2) == n * n + n - 2;
    }
  }

  /** An acyclic graph with at most two more edges than nodes is always laid out in full. */
  lemma SparseAcyclicExhausts(nodes: seq<NodeConfig>, rank: Id -> nat)
    requires Distinct(Ids(nodes)) && Ranked(GraphOf(nodes), rank, |nodes|)
    requires EdgeCount(GraphOf(nodes), Ids(nodes)) <= |nodes| + 2
    ensures Exhausted(Final(nodes))
  {
    hide Final, MaxSteps, EdgeCount, Load, Distinct;
    var g, ids := GraphOf(nodes), Ids(nodes);
    if nodes == [] {
      NoNodes(nodes);
    } else {
      var k := if |nodes| <= 2 then 1 else |nodes| - 1;
      forall i | 0 <= i < |ids| ensures AtLeastOne(rank(ids[i])) <= k { assert nodes[i].id in g; }
      LoadBound(g, ids, rank, k);
      if |nodes| == 1 { LoneNode(nodes, rank); }
      FewEdges(|nodes|, k, EdgeCount(g, ids));
      LightAcyclicExhausts(nodes, rank);
    }
  }

  lemma NoNodes(nodes: seq<NodeConfig>)
    requires nodes == []
    ensures Exhausted(Final(nodes))
  {
    hide Final;
    if Final(nodes).queue != [] { QueueReached(nodes, 0); }
    FinalSound(nodes);
  }

  /** So for such graphs the layout is the one documented. */
  lemma SparseAcyclicLayout(nodes: seq<NodeConfig>, rank: Id -> nat, v: Id)
    requires Distinct(Ids(nodes)) && Ranked(GraphOf(nodes), rank, |nodes|)
    requires EdgeCount(GraphOf(nodes), Ids(nodes)) <= |nodes| + 2
    ensures var g, roots, layer := GraphOf(nodes), RootsOf(nodes), LayerOf(Final(nodes).layer, v);
      if Reached(g, roots, v) then Longest(g, roots, v, layer) else layer == 0
  {
    hide Final, Ranked, Distinct, EdgeCount;
    SparseAcyclicExhausts(nodes, rank);
    LayersAreLongestPaths(nodes, v);
  }

  // ---------- few nodes ----------

  ghost predicate InOrder(g: Graph, order: seq<Id>) {
    Distinct(order) && forall i, j :: 0 <= i < |order| && 0 <= j < |order| && Edge(g, order[i], order[j]) ==> i < j
  }

  ghost predicate Walk(g: Graph, s: set<Id>, p: seq<Id>) {
    (forall i :: 0 <= i < |p| ==> p[i] in s) && forall i :: 0 <= i < |p| - 1 ==> Edge(g, p[i], p[i + 1])
  }

  ghost predicate LeadsOn(g: Graph, s: set<Id>, v: Id) {
    exists t :: t in s && Edge(g, v, t)
  }

  lemma {:induction false} LongWalk(g: Graph, s: set<Id>, n: nat) returns (p: seq<Id>)
    requires s != {} && forall v :: v in s ==> LeadsOn(g, s, v)
    ensures |p| == n + 1 && Walk(g, s, p)
  {
    hide Edge, LeadsOn;
    if n == 0 {
      var v :| v in s;
      p := [v];
    } else {
      p := LongWalk(g, s, n - 1);
      assert LeadsOn(g, s, p[n - 1]);
      p := WalkOn(g, s, p);
    }
  }

  lemma WalkOn(g: Graph, s: set<Id>, p: seq<Id>) returns (q: seq<Id>)
    requires p != [] && Walk(g, s, p) && LeadsOn(g, s, p[|p| - 1])
    ensures |q| == |p| + 1 && Walk(g, s, q)
  {
    hide Edge;
    var t :| t in s && Edge(g, p[|p| - 1], t);
    q := p + [t];
  }

  lemma {:induction false} FitsIn(p: seq<Id>, s: set<Id>)
    requires Distinct(p) && forall i :: 0 <= i < |p| ==> p[i] in s
    ensures |p| <= |s|
    decreases |p|
  {
    if p != [] {
      var n := |p| - 1;
      FitsIn(p[..n], s - {p[n]});
    }
  }

  /** A walk longer than what it walks in goes round. */
  lemma LongWalkCycles(g: Graph, s: set<Id>, p: seq<Id>) returns (v: Id, c: seq<Id>)
    requires Walk(g, s, p) && |p| > |s|
    ensures v in s && Cycle(g, v, c)
  {
    hide Edge;
    if Distinct(p) { FitsIn(p, s); }
    var i, j :| 0 <= i < j < |p| && p[i] == p[j];
    v, c := p[i], p[i..j + 1];
  }

  /** Something in an acyclic set has no edge into the set. */
  lemma Sink(g: Graph, s: set<Id>) returns (v: Id)
    requires s != {} && forall u, c :: u in s ==> !Cycle(g, u, c)
    ensures v in s && !LeadsOn(g, s, v)
  {
    hide Edge, Cycle, Walk, LeadsOn;
    if forall v :: v in s ==> LeadsOn(g, s, v) {
      var p := LongWalk(g, s, |s|);
      var u, c := LongWalkCycles(g, s, p);
      assert false;
    }
    v :| v in s && !LeadsOn(g, s, v);
  }

  lemma {:induction false} Order(g: Graph, s: set<Id>) returns (order: seq<Id>)
    requires forall u, c :: u in s ==> !Cycle(g, u, c)
    ensures InOrder(g, order) && forall v :: v in order <==> v in s
    ensures |order| == |s|
    decreases |s|
  {
    hide Edge, Cycle;
    if s == {} {
      order := [];
    } else {
      var v := Sink(g, s);
      var front := Order(g, s - {v});
      order := front + [v];
      forall i, j | 0 <= i < |order| && 0 <= j < |order| && Edge(g, order[i], order[j]) ensures i < j {
        assert i < |front| ==> front[i] in front;
        assert j < |front| ==> front[j] in front;
      }
    }
  }

  /** Where `v` stands in `order`. */
  function Place(order: seq<Id>, v: Id): nat {
    if order == [] then 0
    else if order[|order| - 1] == v then |order| - 1
    else Place(order[..|order| - 1], v)
  }

  lemma {:induction false} PlaceIs(order: seq<Id>, i: nat)
    requires Distinct(order) && i < |order|
    ensures Place(order, order[i]) == i
  {
    if i < |order| - 1 { PlaceIs(order[..|order| - 1], i); }
  }

  /** No node lists an output twice. */
  ghost predicate Simple(g: Graph) {
    forall v :: v in g ==> Distinct(g[v])
  }

  /** Every target of the node at place `i` stands further on. */
  lemma FewTargets(g: Graph, order: seq<Id>, i: nat)
    requires InOrder(g, order) && Simple(g) && i < |order|
    requires forall t :: Edge(g, order[i], t) ==> t in order
    ensures |TargetsOf(g, order[i])| <= |order| - 1 - i
  {
    var targets := TargetsOf(g, order[i]);
    var places: seq<nat> := [];
    for k := 0 to |targets|
      invariant |places| == k
      invariant forall l :: 0 <= l < k ==> places[l] < |order| - 1 - i && order[places[l] + i + 1] == targets[l]
    {
      assert Edge(g, order[i], targets[k]);
      var j :| 0 <= j < |order| && order[j] == targets[k];
      places := places + [j - i - 1];
    }
    InRangeDistinct(places, |order| - 1 - i);
  }

  /** The load of the first `k` nodes in an order of `m` nodes with as many edges as possible. */
  function FullLoad(m: nat, k: nat): int
    requires k <= m
  {
    if k == 0 then 0 else FullLoad(m, k - 1) + AtLeastOne(k - 1) * (m - k)
  }

  lemma {:induction false} OrderLoad(g: Graph, order: seq<Id>, rank: Id -> nat, k: nat)
    requires InOrder(g, order) && Simple(g) && k <= |order|
    requires forall i, t :: 0 <= i < |order| && Edge(g, order[i], t) ==> t in order
    requires forall i :: 0 <= i < |order| ==> rank(order[i]) == i
    ensures Load(g, order[..k], rank) <= FullLoad(|order|, k)
  {
    hide Edge, InOrder, Simple, AtLeastOne, TargetsOf;
    if k > 0 {
      OrderLoad(g, order, rank, k - 1);
      FewTargets(g, order, k - 1);
      TimesGrows(|TargetsOf(g, order[k - 1])|, |order| - k, AtLeastOne(k - 1));
      assert order[..k][..k - 1] == order[..k - 1];
    }
  }

  /** Up to eight nodes, even the densest graph stays below the bound. */
  lemma EightNodes(m: nat, n: nat)
    requires m <= n <= 8 && n > 0
    ensures FullLoad(m, m) < MaxSteps(n)
  {
    assert FullLoad(0, 0) == 0 && FullLoad(1, 1) == 0 && FullLoad(2, 2) == 1 && FullLoad(3, 3) == 3;
    assert FullLoad(4, 4) == 7 && FullLoad(5, 5) == 14 && FullLoad(6, 6) == 25;
    assert FullLoad(7, 7) == 41 && FullLoad(8, 8) == 63;
    TimesGrows(m, n, m);
    TimesGrows(m, n, n);
  }

  ghost predicate ReachesCycle(nodes: seq<NodeConfig>) {
    exists v, c :: Reached(GraphOf(nodes), RootsOf(nodes), v) && Cycle(GraphOf(nodes), v, c)
  }

  lemma ReachedNext(g: Graph, roots: seq<Id>, a: Id, b: Id)
    requires Reached(g, roots, a) && Edge(g, a, b)
    ensures Reached(g, roots, b)
  {
    var p :| PathTo(g, roots, a, p);
    ExtendPath(g, roots, a, b, |p| - 1);
  }

  lemma EdgeInIds(nodes: seq<NodeConfig>, a: Id, b: Id)
    requires Edge(GraphOf(nodes), a, b)
    ensures a in Ids(nodes) && b in Ids(nodes)
  {
    var i :| 0 <= i < |nodes| && nodes[i].id == a;
    assert Ids(nodes)[i] == a;
  }

  lemma PlacesRise(g: Graph, roots: seq<Id>, order: seq<Id>, rank: Id -> nat)
    requires InOrder(g, order) && forall i :: 0 <= i < |order| ==> rank(order[i]) == i
    requires forall a, b :: Reached(g, roots, a) && Edge(g, a, b) ==> a in order && b in order
    ensures Rising(g, roots, rank)
  {
    hide Edge, Reached;
  }

  lemma SmallAcyclicExhausts(nodes: seq<NodeConfig>)
    requires Distinct(Ids(nodes)) && Simple(GraphOf(nodes)) && 0 < |nodes| <= 8 && !ReachesCycle(nodes)
    ensures Exhausted(Final(nodes))
  {
    hide Final, Run, MaxSteps, Simple, Edge, Cycle, Reached, GraphOf, RootsOf, Load, FullLoad, Distinct, Place, Ids;
    var g, roots, ids := GraphOf(nodes), RootsOf(nodes), Ids(nodes);
    var s := set v | v in ids && Reached(g, roots, v);
    var order := Order(g, s);
    var rank := v => Place(order, v);
    forall i | 0 <= i < |order| ensures rank(order[i]) == i { PlaceIs(order, i); }
    forall i | 0 <= i < |order| ensures order[i] in ids && Reached(g, roots, order[i]) { assert order[i] in s; }
    forall a, b | Reached(g, roots, a) && Edge(g, a, b) ensures a in order && b in order {
      ReachedNext(g, roots, a, b);
      EdgeInIds(nodes, a, b);
    }
    PlacesRise(g, roots, order, rank);
    forall i | 0 <= i < |Final(nodes).queue| ensures Final(nodes).queue[i] in order { QueueReached(nodes, i); }
    OrderLoad(g, order, rank, |order|);
    assert order[..|order|] == order;
    FitsNodes(ids, order);
    EightNodes(|order|, |nodes|);
    LoadExhausts(nodes, rank, order);
  }

  lemma FitsNodes(ids: seq<Id>, order: seq<Id>)
    requires Distinct(order) && Distinct(ids) && forall i :: 0 <= i < |order| ==> order[i] in ids
    ensures |order| <= |ids|
  {
    DistinctCount(ids);
    FitsIn(order, Elements(ids));
  }

  /** With at most eight nodes and no output listed twice, the queue runs empty exactly when no root
      reaches a cycle. */
  lemma SmallExhaustsExactly(nodes: seq<NodeConfig>)
    requires Distinct(Ids(nodes)) && Simple(GraphOf(nodes)) && |nodes| <= 8
    ensures Exhausted(Final(nodes)) <==> !ReachesCycle(nodes)
  {
    hide Final, Simple, Cycle, Reached, GraphOf, RootsOf;
    if ReachesCycle(nodes) {
      var v, c :| Reached(GraphOf(nodes), RootsOf(nodes), v) && Cycle(GraphOf(nodes), v, c);
      CycleNeverExhausts(nodes, v, c);
    } else if nodes == [] {
      NoNodes(nodes);
    } else {
      SmallAcyclicExhausts(nodes);
    }
  }

  /** So every such graph without a reachable cycle gets the documented layout. */
  lemma SmallAcyclicLayout(nodes: seq<NodeConfig>, v: Id)
    requires Distinct(Ids(nodes)) && Simple(GraphOf(nodes)) && |nodes| <= 8 && !ReachesCycle(nodes)
    ensures var g, roots, layer := GraphOf(nodes), RootsOf(nodes), LayerOf(Final(nodes).layer, v);
      if Reached(g, roots, v) then Longest(g, roots, v, layer) else layer == 0
  {
    hide Final, Simple, Distinct, ReachesCycle;
    SmallExhaustsExactly(nodes);
    LayersAreLongestPaths(nodes, v);
  }
}
