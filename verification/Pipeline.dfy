/** The transport of a configured pipeline: what the routing factory wires is a net the ownership and
    delivery results cover, and shared memory is used exactly where a node lists a single target. */
module Pipeline {
  import opened Sequences
  import R = Routing
  import T = Transport
  import G = TransportProgress
  import D = TransportDelivery

  /** One replica of one node. */
  datatype Replica = Replica(id: R.Id, index: nat)

  ghost predicate Exists(m: R.Boxes, s: Replica) {
    s.id in m && s.index < |m[s.id]|
  }

  function BoxOf(m: R.Boxes, s: Replica): R.Mailbox
    requires Exists(m, s)
  {
    m[s.id][s.index]
  }

  /** Where a connection starts: the `k`-th connection of publisher `i` of sender `p`. */
  datatype End = End(p: nat, i: nat, k: nat)

  predicate IsEnd(pubs: seq<seq<seq<nat>>>, x: End) {
    x.p < |pubs| && x.i < |pubs[x.p]| && x.k < |pubs[x.p][x.i]|
  }

  /** Every connection belongs to one place of one publisher, and every such place has its own. */
  ghost predicate OneEach(pubs: seq<seq<seq<nat>>>, ends: seq<End>) {
    && (forall e :: 0 <= e < |ends| ==> IsEnd(pubs, ends[e]) && pubs[ends[e].p][ends[e].i][ends[e].k] == e)
    && (forall p, i, k :: 0 <= p < |pubs| && 0 <= i < |pubs[p]| && 0 <= k < |pubs[p][i]| ==>
          pubs[p][i][k] < |ends| && ends[pubs[p][i][k]] == End(p, i, k))
  }

  /** These connections lead to these ports. */
  ghost predicate Leads(portOf: seq<nat>, edges: seq<nat>, ports: seq<R.Port>) {
    && |edges| == |ports|
    && forall k :: 0 <= k < |edges| ==> edges[k] < |portOf| && portOf[edges[k]] == ports[k]
  }

  /** A sender's publishers, in the order `targets`, are those of its mailbox. */
  ghost predicate PublishersOf(portOf: seq<nat>, pubs: seq<seq<nat>>, wired: map<R.Id, seq<R.Port>>,
                               targets: seq<R.Id>) {
    && |pubs| == |targets| && Distinct(targets)
    && (forall t :: t in wired <==> t in targets)
    && forall i :: 0 <= i < |targets| ==> Leads(portOf, pubs[i], wired[targets[i]])
  }

  /** In which order a net lists the replicas and their targets, and where its connections start. */
  datatype Plan = Plan(senders: seq<Replica>, targets: seq<seq<R.Id>>, ends: seq<End>)

  /** `net` is the data wiring of `m`: its senders are all replicas, each once, and their publishers and
      connections those of their mailboxes. */
  ghost predicate NetOf(net: T.Net, m: R.Boxes, plan: Plan) {
    && |net.pubs| == |plan.senders| == |plan.targets| && |net.portOf| == |plan.ends| && net.page > 0
    && Distinct(plan.senders) && (forall s :: s in plan.senders <==> Exists(m, s))
    && (forall id, k :: id in m && 0 <= k < |m[id]| ==> m[id][k].port < net.ports)
    && OneEach(net.pubs, plan.ends)
    && forall p :: 0 <= p < |plan.senders| ==>
         Exists(m, plan.senders[p])
         && PublishersOf(net.portOf, net.pubs[p], BoxOf(m, plan.senders[p]).pubs, plan.targets[p])
  }

  // ---------- what such a net satisfies ----------

  lemma SameCount(portOf: seq<nat>, pubs: seq<seq<nat>>, wired: map<R.Id, seq<R.Port>>, targets: seq<R.Id>)
    requires PublishersOf(portOf, pubs, wired, targets)
    ensures |pubs| == |wired|
  {
    DistinctCount(targets);
    assert wired.Keys == Elements(targets);
  }

  /** Every configuration the factory accepts gives a net whose ports all exist; a sender may use shared
      memory exactly when its node lists one distinct target; and then its messages go through one
      publisher, connected once to each replica of that target. */
  lemma FactoryNetIsCovered(net: T.Net, m: R.Boxes, nodes: seq<R.NodeConfig>, plan: Plan, p: nat)
    requires R.Routed(m, nodes) && NetOf(net, m, plan) && p < |plan.senders|
    ensures T.Shares(net, p) <==> net.shmEnabled && OneTarget(R.Listed(nodes, R.Data, plan.senders[p].id))
    ensures forall i :: 0 <= i < |net.pubs[p]| ==>
      Leads(net.portOf, net.pubs[p][i], R.PortsOf(m[plan.targets[p][i]], R.Data))
      && |net.pubs[p][i]| == R.ReplicasOf(nodes, plan.targets[p][i])
  {
    hide R.Listed, R.ReplicasOf, OneEach, Leads;
    var s := plan.senders[p];
    SameCount(net.portOf, net.pubs[p], BoxOf(m, s).pubs, plan.targets[p]);
    R.SinglePublisherExactly(m, nodes, s.id, s.index);
    forall i | 0 <= i < |net.pubs[p]|
      ensures Leads(net.portOf, net.pubs[p][i], R.PortsOf(m[plan.targets[p][i]], R.Data))
      ensures |net.pubs[p][i]| == R.ReplicasOf(nodes, plan.targets[p][i])
    {
      PublisherTargets(net, m, nodes, plan, p, i);
    }
  }

  ghost predicate OneTarget(listed: seq<R.Id>) {
    exists t :: t in listed && forall u :: u in listed ==> u == t
  }

  lemma PublisherTargets(net: T.Net, m: R.Boxes, nodes: seq<R.NodeConfig>, plan: Plan, p: nat, i: nat)
    requires R.Routed(m, nodes) && NetOf(net, m, plan) && p < |net.pubs| && i < |net.pubs[p]|
    ensures i < |plan.targets[p]| && plan.targets[p][i] in m
    ensures Leads(net.portOf, net.pubs[p][i], R.PortsOf(m[plan.targets[p][i]], R.Data))
    ensures |net.pubs[p][i]| == R.ReplicasOf(nodes, plan.targets[p][i])
  {
    hide R.Listed, R.ReplicasOf, OneEach;
    var s, t := plan.senders[p], plan.targets[p][i];
    assert t in BoxOf(m, s).pubs;
    assert R.Reaches(m, m[s.id][s.index], R.Listed(nodes, R.Data, s.id), R.Listed(nodes, R.Control, s.id));
  }

  lemma NetIsWired(net: T.Net, m: R.Boxes, nodes: seq<R.NodeConfig>, plan: Plan)
    requires R.Routed(m, nodes) && NetOf(net, m, plan)
    ensures T.Wired(net)
  {
    hide R.Routed, PublishersOf, Leads, R.PortsOf;
    forall e | 0 <= e < |net.portOf| ensures net.portOf[e] < net.ports {
      var x := plan.ends[e];
      PublisherTargets(net, m, nodes, plan, x.p, x.i);
      LeadsBelow(net, net.pubs[x.p][x.i], m[plan.targets[x.p][x.i]], x.k);
    }
  }

  lemma LeadsBelow(net: T.Net, edges: seq<nat>, boxes: seq<R.Mailbox>, k: nat)
    requires Leads(net.portOf, edges, R.PortsOf(boxes, R.Data)) && k < |edges|
    requires forall j :: 0 <= j < |boxes| ==> boxes[j].port < net.ports
    ensures edges[k] < |net.portOf| && net.portOf[edges[k]] < net.ports
  {
  }

  /** End to end: in a configured pipeline with a positive threshold, however its processes interleave and
      whatever its queues drop, nothing opens a segment that is gone; and once it has come to rest nothing
      is left behind, and what has come in at every port, and been received there if nothing was dropped and
      the queue is empty, is exactly what was sent to it, each connection's messages in the order they were
      sent. */
  lemma PipelineLeaksNothing(net: T.Net, m: R.Boxes, nodes: seq<R.NodeConfig>, plan: Plan, actions: seq<T.Action>)
    requires R.Routed(m, nodes) && NetOf(net, m, plan) && net.minBytes >= 1
    ensures var st := T.Run(net, actions);
      !st.failed && (T.Quiet(st) ==>
        && st.live == map[] && |st.inboxes| == net.ports
        && forall q :: 0 <= q < net.ports ==>
             var b := st.inboxes[q];
             && T.Interleaves(net, b.arrivals, q, T.Sent(st.links))
             && (b.discarded == [] && b.queue == [] ==> T.Interleaves(net, b.received, q, T.Sent(st.links))))
  {
    hide T.Run, T.Quiet, T.Interleaves, T.Sent, NetOf, R.Routed;
    assert net.page > 0 by { Pages(net, m, plan); }
    NetIsWired(net, m, nodes, plan);
    T.OwnedExactlyOnce(net, actions, 0);
    var st := T.Run(net, actions);
    if T.Quiet(st) {
      T.QuietLeavesNoSegment(net, actions);
      T.RunMerges(net, actions);
      T.MergedSizes(net, st);
      forall q | 0 <= q < net.ports
        ensures T.Interleaves(net, st.inboxes[q].arrivals, q, T.Sent(st.links))
        ensures st.inboxes[q].discarded == [] && st.inboxes[q].queue == [] ==>
          T.Interleaves(net, st.inboxes[q].received, q, T.Sent(st.links))
      {
        T.QuietHasDelivered(net, actions, q);
        T.QuietHasReceived(net, actions, q);
      }
    }
  }

  /** In a routed configuration every publisher is connected to at least one replica, and no connection is
      shared. */
  lemma NetConnects(net: T.Net, m: R.Boxes, nodes: seq<R.NodeConfig>, plan: Plan)
    requires R.Routed(m, nodes) && NetOf(net, m, plan)
    ensures G.Connected(net) && D.OwnConnections(net)
  {
    hide R.Listed, Leads, R.PortsOf;
    forall p, i | 0 <= p < |net.pubs| && 0 <= i < |net.pubs[p]| ensures net.pubs[p][i] != [] {
      PublisherTargets(net, m, nodes, plan, p, i);
    }
    forall p, i, q, j, e: nat | D.Owns(net, p, i, e) && D.Owns(net, q, j, e) ensures p == q && i == j {
      var k :| 0 <= k < |net.pubs[p][i]| && net.pubs[p][i][k] == e;
      var l :| 0 <= l < |net.pubs[q][j]| && net.pubs[q][j][l] == e;
      assert plan.ends[e] == End(p, i, k) == End(q, j, l);
    }
  }

  /** And whatever a configured pipeline has been doing, if nothing was dropped from a queue it can finish, and
      then every message any node was given to send has been received by exactly one replica of each of the
      node's targets, and nothing is left behind. */
  lemma PipelineDelivers(net: T.Net, m: R.Boxes, nodes: seq<R.NodeConfig>, plan: Plan, actions: seq<T.Action>)
    returns (more: seq<T.Action>)
    requires R.Routed(m, nodes) && NetOf(net, m, plan) && net.minBytes >= 1 && net.page > 0
    requires var st := T.Run(net, actions); forall q :: 0 <= q < |st.inboxes| ==> st.inboxes[q].discarded == []
    ensures G.OnlyFinishing(more)
    ensures
      var now := T.Run(net, actions + more);
      && T.Quiet(now) && now.live == map[]
      && forall p, i :: 0 <= p < |net.pubs| && 0 <= i < |net.pubs[p]| ==> D.AllReceived(net, actions + more, p, i)
  {
    hide T.Run, T.Quiet, NetOf, R.Routed, D.AllReceived, G.OnlyFinishing, D.OwnConnections, G.Connected;
    NetIsWired(net, m, nodes, plan);
    NetConnects(net, m, nodes, plan);
    more := G.ComesToRest(net, actions);
    T.QuietLeavesNoSegment(net, actions + more);
    forall p, i | 0 <= p < |net.pubs| && 0 <= i < |net.pubs[p]| ensures D.AllReceived(net, actions + more, p, i) {
      D.EverySendIsReceived(net, actions + more, p, i);
    }
  }

  lemma Pages(net: T.Net, m: R.Boxes, plan: Plan)
    requires NetOf(net, m, plan)
    ensures net.page > 0
  {
  }

  // ---------- every configuration has its net ----------

  lemma {:induction false} Listing<X>(s: set<X>) returns (l: seq<X>)
    ensures Distinct(l) && forall x :: x in l <==> x in s
    decreases |s|
  {
    l := [];
    if s != {} {
      var x :| x in s;
      var rest := Listing(s - {x});
      l := rest + [x];
    }
  }

  lemma AllReplicas(m: R.Boxes) returns (senders: seq<Replica>)
    ensures Distinct(senders) && forall s :: s in senders <==> Exists(m, s)
  {
    var all := set id, k | id in m && 0 <= k < |m[id]| :: Replica(id, k);
    senders := Listing(all);
  }

  lemma {:induction false} PortBound(m: R.Boxes, senders: seq<Replica>) returns (bound: nat)
    requires forall i :: 0 <= i < |senders| ==> Exists(m, senders[i])
    ensures forall i :: 0 <= i < |senders| ==> BoxOf(m, senders[i]).port < bound
  {
    bound := 0;
    if senders != [] {
      var n := |senders| - 1;
      var before := PortBound(m, senders[..n]);
      var port := BoxOf(m, senders[n]).port;
      bound := if port < before then before else port + 1;
    }
  }

  /** New connections for one more publisher of the last sender. */
  function Fresh(from: nat, n: nat): (edges: seq<nat>)
    ensures |edges| == n && forall k :: 0 <= k < n ==> edges[k] == from + k
  {
    seq(n, k requires 0 <= k < n => from + k)
  }

  function FreshEnds(p: nat, i: nat, n: nat): (ends: seq<End>)
    ensures |ends| == n && forall k :: 0 <= k < n ==> ends[k] == End(p, i, k)
  {
    seq(n, k requires 0 <= k < n => End(p, i, k))
  }

  lemma OnePublisherMore(pubs: seq<seq<seq<nat>>>, last: seq<seq<nat>>, ends: seq<End>, n: nat)
    requires OneEach(pubs + [last], ends)
    ensures OneEach(pubs + [last + [Fresh(|ends|, n)]], ends + FreshEnds(|pubs|, |last|, n))
  {
    var was, now := pubs + [last], pubs + [last + [Fresh(|ends|, n)]];
    var more := ends + FreshEnds(|pubs|, |last|, n);
    forall e | 0 <= e < |more| ensures IsEnd(now, more[e]) && now[more[e].p][more[e].i][more[e].k] == e {
      if e < |ends| { assert IsEnd(was, ends[e]); }
    }
    forall p, i, k | 0 <= p < |now| && 0 <= i < |now[p]| && 0 <= k < |now[p][i]|
      ensures now[p][i][k] < |more| && more[now[p][i][k]] == End(p, i, k)
    {
      if p < |pubs| || i < |last| { assert was[p][i][k] < |ends|; }
    }
  }

  lemma OneSenderMore(pubs: seq<seq<seq<nat>>>, ends: seq<End>)
    requires OneEach(pubs, ends)
    ensures OneEach(pubs + [[]], ends)
  {
    var now: seq<seq<seq<nat>>> := pubs + [[]];
    forall e | 0 <= e < |ends| ensures IsEnd(now, ends[e]) && now[ends[e].p][ends[e].i][ends[e].k] == e {
      assert IsEnd(pubs, ends[e]);
    }
    forall p, i, k | 0 <= p < |now| && 0 <= i < |now[p]| && 0 <= k < |now[p][i]|
      ensures now[p][i][k] < |ends| && ends[now[p][i][k]] == End(p, i, k)
    {
      assert p < |pubs| && pubs[p][i][k] < |ends|;
    }
  }

  lemma LeadsLonger(portOf: seq<nat>, more: seq<nat>, edges: seq<nat>, ports: seq<R.Port>)
    requires Leads(portOf, edges, ports)
    ensures Leads(portOf + more, edges, ports)
  {
  }

  /** The connections of one sender, added to those of the senders before it. */
  lemma AddSender(pubs: seq<seq<seq<nat>>>, portOf: seq<nat>, ends: seq<End>, wired: map<R.Id, seq<R.Port>>)
    returns (last: seq<seq<nat>>, targets: seq<R.Id>, ports: seq<nat>, more: seq<End>)
    requires OneEach(pubs, ends) && |portOf| == |ends|
    ensures OneEach(pubs + [last], ends + more) && |ports| == |more|
    ensures PublishersOf(portOf + ports, last, wired, targets)
  {
    hide OneEach, Leads, Fresh, FreshEnds;
    targets := Listing(wired.Keys);
    last, ports, more := [], [], [];
    OneSenderMore(pubs, ends);
    assert ends + [] == ends;
    for i := 0 to |targets|
      invariant |last| == i && |ports| == |more| && OneEach(pubs + [last], ends + more)
      invariant forall j :: 0 <= j < i ==> Leads(portOf + ports, last[j], wired[targets[j]])
    {
      var to := wired[targets[i]];
      NumberPublisher(pubs, last, ends, more, |to|);
      forall j | 0 <= j < i ensures Leads(portOf + (ports + to), last[j], wired[targets[j]]) {
        LeadsOn(portOf, ports, to, last[j], wired[targets[j]]);
      }
      FreshLeads(portOf, ports, to);
      last, ports, more := last + [Fresh(|portOf| + |ports|, |to|)], ports + to, more + FreshEnds(|pubs|, i, |to|);
    }
  }

  lemma NumberPublisher(pubs: seq<seq<seq<nat>>>, last: seq<seq<nat>>, ends: seq<End>, more: seq<End>, n: nat)
    requires OneEach(pubs + [last], ends + more)
    ensures OneEach(pubs + [last + [Fresh(|ends| + |more|, n)]], ends + (more + FreshEnds(|pubs|, |last|, n)))
  {
    hide *;
    OnePublisherMore(pubs, last, ends + more, n);
    Assoc(ends, more, FreshEnds(|pubs|, |last|, n));
  }

  lemma LeadsOn(portOf: seq<nat>, ports: seq<nat>, to: seq<nat>, edges: seq<nat>, wired: seq<R.Port>)
    requires Leads(portOf + ports, edges, wired)
    ensures Leads(portOf + (ports + to), edges, wired)
  {
    LeadsLonger(portOf + ports, to, edges, wired);
    Assoc(portOf, ports, to);
  }

  lemma FreshLeads(portOf: seq<nat>, ports: seq<nat>, to: seq<nat>)
    ensures Leads(portOf + (ports + to), Fresh(|portOf| + |ports|, |to|), to)
  {
  }

  lemma PublishersLonger(portOf: seq<nat>, more: seq<nat>, pubs: seq<seq<nat>>, wired: map<R.Id, seq<R.Port>>,
                         targets: seq<R.Id>)
    requires PublishersOf(portOf, pubs, wired, targets)
    ensures PublishersOf(portOf + more, pubs, wired, targets)
  {
    hide Leads;
    forall i | 0 <= i < |targets| ensures Leads(portOf + more, pubs[i], wired[targets[i]]) {
      LeadsLonger(portOf, more, pubs[i], wired[targets[i]]);
    }
  }

  /** Whatever the factory wires has such a net, with any setting of shared memory: the results above are
      about every pipeline it accepts. */
  lemma NetExists(m: R.Boxes, shmEnabled: bool, minBytes: int, page: nat) returns (net: T.Net, plan: Plan)
    requires page > 0
    ensures NetOf(net, m, plan)
    ensures net.shmEnabled == shmEnabled && net.minBytes == minBytes && net.page == page
  {
    hide OneEach, PublishersOf;
    var senders := AllReplicas(m);
    forall p | 0 <= p < |senders| ensures Exists(m, senders[p]) { assert senders[p] in senders; }
    var bound := PortBound(m, senders);
    var pubs: seq<seq<seq<nat>>>, portOf: seq<nat>, ends: seq<End>, targets: seq<seq<R.Id>> := [], [], [], [];
    NoConnections();
    for p := 0 to |senders|
      invariant |pubs| == |targets| == p && |portOf| == |ends| && OneEach(pubs, ends)
      invariant forall q :: 0 <= q < p ==> PublishersOf(portOf, pubs[q], BoxOf(m, senders[q]).pubs, targets[q])
    {
      var last, to, ports, more := AddSender(pubs, portOf, ends, BoxOf(m, senders[p]).pubs);
      forall q | 0 <= q < p ensures PublishersOf(portOf + ports, pubs[q], BoxOf(m, senders[q]).pubs, targets[q]) {
        PublishersLonger(portOf, ports, pubs[q], BoxOf(m, senders[q]).pubs, targets[q]);
      }
      pubs, targets, portOf, ends := pubs + [last], targets + [to], portOf + ports, ends + more;
    }
    net, plan := T.Net(pubs, portOf, bound, shmEnabled, minBytes, page), Plan(senders, targets, ends);
    forall id, k | id in m && 0 <= k < |m[id]| ensures m[id][k].port < net.ports {
      assert Exists(m, Replica(id, k));
      var i :| 0 <= i < |senders| && senders[i] == Replica(id, k);
    }
  }

  lemma NoConnections()
    ensures OneEach([], [])
  {
  }
}
