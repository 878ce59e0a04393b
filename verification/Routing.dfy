/** Wiring a pipeline's mailboxes: one publisher per distinct target node, connected once to every replica
    of it, and one control publisher per replica. */
module Routing {
  import opened Sequences
  import opened Wrappers

  type Id = string

  type Port = nat

  datatype NodeConfig = NodeConfig(id: Id, replicas: int, outputs: seq<Id>, controlOutputs: seq<Id>)

  // ---------- publishers ----------

  /** Connecting to a port twice is connecting once. */
  function Connect(connected: seq<Port>, port: Port): seq<Port> {
    if port in connected then connected else connected + [port]
  }

  function ConnectAll(connected: seq<Port>, ports: seq<Port>): seq<Port> {
    if ports == [] then connected else Connect(ConnectAll(connected, ports[..|ports| - 1]), ports[|ports| - 1])
  }

  /** No port is connected twice, and the ports connected are those asked for. */
  lemma {:induction false} ConnectAllSpec(connected: seq<Port>, ports: seq<Port>)
    requires Distinct(connected)
    ensures Distinct(ConnectAll(connected, ports))
    ensures forall p :: p in ConnectAll(connected, ports) <==> p in connected || p in ports
  {
    if ports != [] {
      var n := |ports| - 1;
      ConnectAllSpec(connected, ports[..n]);
      assert ports == ports[..n] + [ports[n]];
    }
  }

  lemma {:induction false} ConnectDistinct(connected: seq<Port>, ports: seq<Port>)
    requires Distinct(connected + ports)
    ensures ConnectAll(connected, ports) == connected + ports
  {
    if ports != [] {
      var n := |ports| - 1;
      assert connected + ports == (connected + ports[..n]) + [ports[n]];
      assert Distinct(connected + ports[..n]) by {
        assert forall i :: 0 <= i < |connected| + n ==> (connected + ports[..n])[i] == (connected + ports)[i];
      }
      ConnectDistinct(connected, ports[..n]);
      LastIsNew(connected + ports[..n], ports[n]);
    }
  }

  lemma LastIsNew(front: seq<Port>, last: Port)
    requires Distinct(front + [last])
    ensures last !in front
  {
    var all := front + [last];
    assert all[|front|] == last;
    assert forall i :: 0 <= i < |front| ==> all[i] == front[i];
  }

  lemma {:induction false} ConnectAgain(connected: seq<Port>, ports: seq<Port>)
    requires forall i :: 0 <= i < |ports| ==> ports[i] in connected
    ensures ConnectAll(connected, ports) == connected
  {
    if ports != [] { ConnectAgain(connected, ports[..|ports| - 1]); }
  }

  datatype DisconnectError = NotConnected | LastConnection

  datatype OpenError = NoPort

  /** A PUSH socket and the ports it is connected to. */
  class ZeroQueuePub {
    var connected: seq<Port>

    ghost predicate Valid()
      reads this
    {
      connected != [] && Distinct(connected)
    }

    constructor (ports: seq<Port>)
      requires ports != []
      ensures Valid() && connected == ConnectAll([], ports)
      ensures forall p :: p in connected <==> p in ports
    {
      connected := [ports[0]];
      new;
      assert ports[..1] == [ports[0]] && ports[..1][..0] == [];
      assert ConnectAll([], ports[..1]) == Connect(ConnectAll([], []), ports[0]);
      for i := 1 to |ports|
        invariant connected == ConnectAll([], ports[..i])
      {
        assert ports[..i + 1][..i] == ports[..i];
        ConnectAdditional(ports[i]);
      }
      assert ports[..|ports|] == ports;
      ConnectAllSpec([], ports);
      assert ports[0] in connected;
    }

    /** What opening a publisher does: the list of ports if there is one, else the single port; nothing to
        connect to is an error. */
    static method Open(port: Option<Port>, ports: seq<Port>) returns (r: Result<ZeroQueuePub, OpenError>)
      ensures r.Err? <==> ports == [] && port.None?
      ensures r.Ok? ==> fresh(r.value) && r.value.Valid()
      ensures r.Ok? ==> forall p :: p in r.value.connected <==> if ports != [] then p in ports else Some(p) == port
    {
      if ports == [] && port.None? {
        return Err(NoPort);
      }
      var all := if ports != [] then ports else [port.value];
      var pub := new ZeroQueuePub(all);
      r := Ok(pub);
    }

    method ConnectAdditional(port: Port)
      modifies this
      ensures connected == Connect(old(connected), port)
    {
      if port in connected {
        return;
      }
      connected := connected + [port];
    }

    /** Disconnects one port; the only remaining one stays. */
    method DisconnectAdditional(port: Port) returns (r: Result<(), DisconnectError>)
      requires Valid()
      modifies this
      ensures Valid()
      ensures port !in old(connected) ==> r == Err(NotConnected)
      ensures port in old(connected) && |old(connected)| == 1 ==> r == Err(LastConnection)
      ensures r.Err? ==> connected == old(connected)
      ensures r.Ok? ==> forall p :: p in connected <==> p in old(connected) && p != port
      ensures r.Ok? <==> port in old(connected) && |old(connected)| > 1
    {
      if port !in connected {
        return Err(NotConnected);
      }
      if |connected| <= 1 {
        return Err(LastConnection);
      }
      var i := 0;
      while connected[i] != port
        invariant i < |connected| && forall k :: 0 <= k < i ==> connected[k] != port
        decreases |connected| - i
      {
        i := i + 1;
      }
      ghost var before := connected;
      connected := connected[..i] + connected[i + 1..];
      forall p ensures p in connected <==> p in before && p != port {
        if p in before && p != port {
          var k :| 0 <= k < |before| && before[k] == p;
          assert connected[if k < i then k else k - 1] == p;
        }
      }
      r := Ok(());
    }
  }

  // ---------- mailboxes ----------

  /** `pubs[t]` are the ports the publisher to `t` is connected to; `controls[t]` are those of the single-port
      control publishers to `t`. */
  datatype Mailbox = Mailbox(port: Port, controlPort: Port, pubs: map<Id, seq<Port>>, controls: map<Id, seq<Port>>)

  function AddPublisher(pubs: map<Id, seq<Port>>, target: Id, ports: seq<Port>): map<Id, seq<Port>> {
    pubs[target := ConnectAll(if target in pubs then pubs[target] else [], ports)]
  }

  function AddControl(controls: map<Id, seq<Port>>, target: Id, ports: seq<Port>): map<Id, seq<Port>> {
    controls[target := (if target in controls then controls[target] else []) + ports]
  }

  predicate AllIn(targets: seq<Id>, known: set<Id>) {
    forall i :: 0 <= i < |targets| ==> targets[i] in known
  }

  /** The publishers after adding a list of targets to none. */
  function Publishers(targets: seq<Id>, portsOf: map<Id, seq<Port>>): map<Id, seq<Port>>
    requires AllIn(targets, portsOf.Keys)
  {
    if targets == [] then map[] else
    var last := targets[|targets| - 1];
    AddPublisher(Publishers(targets[..|targets| - 1], portsOf), last, portsOf[last])
  }

  function ControlPublishers(targets: seq<Id>, portsOf: map<Id, seq<Port>>): map<Id, seq<Port>>
    requires AllIn(targets, portsOf.Keys)
  {
    if targets == [] then map[] else
    var last := targets[|targets| - 1];
    AddControl(ControlPublishers(targets[..|targets| - 1], portsOf), last, portsOf[last])
  }

  /** However often a target is listed, there is one publisher to it, connected once to each replica. */
  lemma {:induction false} PublishersSpec(targets: seq<Id>, portsOf: map<Id, seq<Port>>)
    requires AllIn(targets, portsOf.Keys) && forall t :: t in portsOf ==> Distinct(portsOf[t])
    ensures forall t :: t in Publishers(targets, portsOf) <==> t in targets
    ensures forall t :: t in targets ==> Publishers(targets, portsOf)[t] == portsOf[t]
  {
    hide ConnectAll;
    if targets != [] {
      var n := |targets| - 1;
      var last := targets[n];
      PublishersSpec(targets[..n], portsOf);
      assert targets == targets[..n] + [last];
      if last in targets[..n] {
        ConnectAgain(portsOf[last], portsOf[last]);
      } else {
        assert [] + portsOf[last] == portsOf[last];
        ConnectDistinct([], portsOf[last]);
      }
    }
  }

  /** Control publishers: one to every replica of every listed target, and to nothing else. */
  lemma {:induction false} ControlPublishersSpec(targets: seq<Id>, portsOf: map<Id, seq<Port>>)
    requires AllIn(targets, portsOf.Keys)
    ensures forall t :: t in ControlPublishers(targets, portsOf) <==> t in targets
    ensures forall t, p :: t in targets ==> (p in ControlPublishers(targets, portsOf)[t] <==> p in portsOf[t])
  {
    if targets != [] {
      var n := |targets| - 1;
      ControlPublishersSpec(targets[..n], portsOf);
      assert targets == targets[..n] + [targets[n]];
    }
  }

  function Times(targets: seq<Id>, t: Id): nat {
    if targets == [] then 0
    else Times(targets[..|targets| - 1], t) + if targets[|targets| - 1] == t then 1 else 0
  }

  lemma {:induction false} NeverListed(targets: seq<Id>, t: Id)
    requires t !in targets
    ensures Times(targets, t) == 0
  {
    if targets != [] { NeverListed(targets[..|targets| - 1], t); }
  }

  /** A control target that is listed several times gets as many publishers to each replica. */
  lemma {:induction false} ControlPublishersCount(targets: seq<Id>, portsOf: map<Id, seq<Port>>, t: Id)
    requires AllIn(targets, portsOf.Keys) && t in targets
    ensures t in ControlPublishers(targets, portsOf)
    ensures |ControlPublishers(targets, portsOf)[t]| == Times(targets, t) * |portsOf[t]|
  {
    var n := |targets| - 1;
    assert targets == targets[..n] + [targets[n]];
    ControlPublishersSpec(targets[..n], portsOf);
    if t in targets[..n] {
      ControlPublishersCount(targets[..n], portsOf, t);
      OneTimeMore(Times(targets[..n], t), |portsOf[t]|);
    } else {
      NeverListed(targets[..n], t);
    }
  }

  lemma OneTimeMore(k: nat, n: nat)
    ensures (k + 1) * n == k * n + n
  {
  }

  // ---------- the factory ----------

  datatype WiringError = TargetNotFound(target: Id)

  /** The mailboxes of every node id, one per replica. */
  type Boxes = map<Id, seq<Mailbox>>

  /** Data edges and control edges are wired alike. */
  datatype Channel = Data | Control

  function TargetsOf(node: NodeConfig, channel: Channel): seq<Id> {
    if channel.Data? then node.outputs else node.controlOutputs
  }

  function PortsOf(boxes: seq<Mailbox>, channel: Channel): (s: seq<Port>)
    ensures |s| == |boxes|
  {
    seq(|boxes|, k requires 0 <= k < |boxes| => if channel.Data? then boxes[k].port else boxes[k].controlPort)
  }

  function AllPorts(m: Boxes, channel: Channel): (r: map<Id, seq<Port>>)
    ensures r.Keys == m.Keys
  {
    map id | id in m :: PortsOf(m[id], channel)
  }

  function Attach(box: Mailbox, channel: Channel, target: Id, ports: seq<Port>): Mailbox {
    if channel.Data? then box.(pubs := AddPublisher(box.pubs, target, ports))
    else box.(controls := AddControl(box.controls, target, ports))
  }

  function AttachEach(boxes: seq<Mailbox>, channel: Channel, target: Id, ports: seq<Port>): (r: seq<Mailbox>)
    ensures |r| == |boxes|
  {
    seq(|boxes|, k requires 0 <= k < |boxes| => Attach(boxes[k], channel, target, ports))
  }

  /** Wiring the targets of one entry, in order; it stops at a target that is not there. */
  function WireTargets(m: Boxes, channel: Channel, id: Id, targets: seq<Id>): (r: Option<Boxes>)
    requires id in m
    ensures r.Some? ==> r.value.Keys == m.Keys
  {
    if targets == [] then Some(m) else
    var before := WireTargets(m, channel, id, targets[..|targets| - 1]);
    var last := targets[|targets| - 1];
    if before.None? || last !in m then None else
    Some(before.value[id := AttachEach(before.value[id], channel, last, PortsOf(before.value[last], channel))])
  }

  predicate IdsIn(nodes: seq<NodeConfig>, m: Boxes) {
    forall i :: 0 <= i < |nodes| ==> nodes[i].id in m
  }

  function WireNodes(m: Boxes, channel: Channel, nodes: seq<NodeConfig>): (r: Option<Boxes>)
    requires IdsIn(nodes, m)
    ensures r.Some? ==> r.value.Keys == m.Keys
  {
    if nodes == [] then Some(m) else
    var before := WireNodes(m, channel, nodes[..|nodes| - 1]);
    var last := nodes[|nodes| - 1];
    if before.None? then None else WireTargets(before.value, channel, last.id, TargetsOf(last, channel))
  }

  /** How many replicas a node id gets: of several entries the last one counts, and never less than one. */
  function ReplicasOf(nodes: seq<NodeConfig>, id: Id): nat {
    if nodes == [] then 0
    else if nodes[|nodes| - 1].id == id then
      if nodes[|nodes| - 1].replicas <= 1 then 1 else nodes[|nodes| - 1].replicas
    else ReplicasOf(nodes[..|nodes| - 1], id)
  }

  lemma {:induction false} ConfiguredHasReplicas(nodes: seq<NodeConfig>, i: nat)
    requires i < |nodes|
    ensures ReplicasOf(nodes, nodes[i].id) > 0
  {
    var n := |nodes| - 1;
    if i < n { ConfiguredHasReplicas(nodes[..n], i); }
  }

  /** A configured node gets as many replicas as its last entry asks for, and at least one; others get none. */
  lemma {:induction false} ReplicasAre(nodes: seq<NodeConfig>, i: nat)
    requires i < |nodes| && forall j :: i < j < |nodes| ==> nodes[j].id != nodes[i].id
    ensures ReplicasOf(nodes, nodes[i].id) == if nodes[i].replicas > 1 then nodes[i].replicas else 1
  {
    if i < |nodes| - 1 { ReplicasAre(nodes[..|nodes| - 1], i); }
  }

  lemma {:induction false} NoReplicas(nodes: seq<NodeConfig>, id: Id)
    requires forall i :: 0 <= i < |nodes| ==> nodes[i].id != id
    ensures ReplicasOf(nodes, id) == 0
  {
    if nodes != [] { NoReplicas(nodes[..|nodes| - 1], id); }
  }

  /** `n` mailboxes on distinct ports, not wired to anything. */
  ghost predicate Unwired(boxes: seq<Mailbox>, n: nat) {
    && |boxes| == n && Distinct(PortsOf(boxes, Data)) && Distinct(PortsOf(boxes, Control))
    && forall k :: 0 <= k < n ==> boxes[k].pubs == map[] && boxes[k].controls == map[]
  }

  /** No two mailboxes, of whatever nodes, listen on the same data port. */
  ghost predicate OwnPorts(m: Boxes) {
    forall id, k, other, l :: ListensOn(m, id, k, other, l) ==> id == other && k == l
  }

  /** Replica `k` of `id` and replica `l` of `other` have the same data port. */
  predicate ListensOn(m: Boxes, id: Id, k: int, other: Id, l: int) {
    id in m && other in m && 0 <= k < |m[id]| && 0 <= l < |m[other]| && m[id][k].port == m[other][l].port
  }

  ghost predicate PortsBelow(m: Boxes, bound: Port) {
    forall id, k :: id in m && 0 <= k < |m[id]| ==> m[id][k].port < bound
  }

  lemma NewPorts(m: Boxes, id: Id, boxes: seq<Mailbox>, bound: Port)
    requires OwnPorts(m) && PortsBelow(m, bound) && Distinct(PortsOf(boxes, Data))
    requires forall k :: 0 <= k < |boxes| ==> bound <= boxes[k].port
    ensures OwnPorts(m[id := boxes])
  {
    var now := m[id := boxes];
    forall a, k, b, l | ListensOn(now, a, k, b, l) ensures a == b && k == l {
      if a == id && b == id {
        assert PortsOf(boxes, Data)[k] == PortsOf(boxes, Data)[l];
      } else if a != id && b != id {
        assert ListensOn(m, a, k, b, l);
      }
    }
  }

  lemma UnwiredPorts(boxes: seq<Mailbox>, n: nat)
    requires Unwired(boxes, n)
    ensures Distinct(PortsOf(boxes, Data))
  {
  }

  lemma SamePorts(m: Boxes, now: Boxes)
    requires OwnPorts(m) && now.Keys == m.Keys
    requires forall id :: id in m ==> PortsOf(now[id], Data) == PortsOf(m[id], Data)
    ensures OwnPorts(now)
  {
    forall a, k, b, l | ListensOn(now, a, k, b, l) ensures a == b && k == l {
      assert PortsOf(now[a], Data)[k] == PortsOf(m[a], Data)[k];
      assert PortsOf(now[b], Data)[l] == PortsOf(m[b], Data)[l];
      assert ListensOn(m, a, k, b, l);
    }
  }

  /** Every configured id has its replicas. */
  ghost predicate Created(m: Boxes, nodes: seq<NodeConfig>) {
    && OwnPorts(m)
    && (forall id :: id in m <==> ReplicasOf(nodes, id) > 0)
    && (forall id :: id in m ==> Unwired(m[id], ReplicasOf(nodes, id)))
  }

  lemma CreatedHasIds(m: Boxes, nodes: seq<NodeConfig>)
    requires Created(m, nodes)
    ensures IdsIn(nodes, m)
  {
    forall i | 0 <= i < |nodes| ensures nodes[i].id in m { ConfiguredHasReplicas(nodes, i); }
  }

  class RoutingFactory {
    const nodes: seq<NodeConfig>
    var mailboxes: Boxes
    var nextPort: Port

    constructor (nodes: seq<NodeConfig>)
      ensures this.nodes == nodes
    {
      this.nodes, mailboxes, nextPort := nodes, map[], 0;
    }

    /** The operating system hands out ports that are not in use. */
    method NewMailboxes(n: nat) returns (boxes: seq<Mailbox>)
      modifies this`nextPort
      ensures Unwired(boxes, n) && nextPort >= old(nextPort)
      ensures forall k :: 0 <= k < n ==>
        old(nextPort) <= boxes[k].port < nextPort && old(nextPort) <= boxes[k].controlPort < nextPort
    {
      var base := nextPort;
      boxes := seq(n, k requires 0 <= k < n => Mailbox(base + 2 * k, base + 2 * k + 1, map[], map[]));
      nextPort := nextPort + 2 * n;
    }

    method CreateReplicaMailboxes()
      modifies this
      ensures Created(mailboxes, nodes)
    {
      mailboxes := map[];
      for i := 0 to |nodes|
        invariant Created(mailboxes, nodes[..i]) && PortsBelow(mailboxes, nextPort)
      {
        hide Unwired, OwnPorts;
        var replicas := if nodes[i].replicas <= 1 then 1 else nodes[i].replicas;
        ghost var base := nextPort;
        var boxes := NewMailboxes(replicas);
        UnwiredPorts(boxes, replicas);
        NewPorts(mailboxes, nodes[i].id, boxes, base);
        mailboxes := mailboxes[nodes[i].id := boxes];
        assert nodes[..i + 1][..i] == nodes[..i] && nodes[..i + 1][i] == nodes[i];
      }
      assert nodes[..|nodes|] == nodes;
    }

    /** Wires every replica of one entry to every replica of each of its targets. */
    method WireEntry(channel: Channel, id: Id, targets: seq<Id>) returns (r: Result<(), WiringError>)
      requires id in mailboxes
      modifies this`mailboxes
      ensures r.Ok? <==> WireTargets(old(mailboxes), channel, id, targets).Some?
      ensures r.Ok? ==> mailboxes == WireTargets(old(mailboxes), channel, id, targets).value
      ensures r.Err? ==> r.error.target !in old(mailboxes)
    {
      hide AttachEach, PortsOf;
      ghost var before := mailboxes;
      for j := 0 to |targets|
        invariant mailboxes.Keys == before.Keys
        invariant WireTargets(before, channel, id, targets[..j]) == Some(mailboxes)
      {
        assert targets[..j + 1][..j] == targets[..j];
        if targets[j] !in mailboxes {
          FailsEarly(before, channel, id, targets, j);
          return Err(TargetNotFound(targets[j]));
        }
        var ports := PortsOf(mailboxes[targets[j]], channel);
        mailboxes := mailboxes[id := AttachEach(mailboxes[id], channel, targets[j], ports)];
      }
      assert targets[..|targets|] == targets;
      r := Ok(());
    }

    /** Wires every entry in turn; the first target that is not there stops it. */
    method WireOutputs(channel: Channel) returns (r: Result<(), WiringError>)
      requires IdsIn(nodes, mailboxes)
      modifies this`mailboxes
      ensures r.Ok? <==> WireNodes(old(mailboxes), channel, nodes).Some?
      ensures r.Ok? ==> mailboxes == WireNodes(old(mailboxes), channel, nodes).value
      ensures r.Err? ==> r.error.target !in old(mailboxes)
    {
      hide WireTargets;
      ghost var m := mailboxes;
      for i := 0 to |nodes|
        invariant mailboxes.Keys == m.Keys
        invariant WireNodes(m, channel, nodes[..i]) == Some(mailboxes)
      {
        var entry := WireEntry(channel, nodes[i].id, TargetsOf(nodes[i], channel));
        if entry.Err? {
          FailsEntry(m, channel, nodes, i);
          return entry;
        }
        assert nodes[..i + 1][..i] == nodes[..i];
      }
      assert nodes[..|nodes|] == nodes;
      r := Ok(());
    }

    /** The whole factory: on success every mailbox publishes to its targets as specified. */
    method CreateMailboxes() returns (r: Result<(), WiringError>)
      modifies this
      ensures r.Ok? <==> AllConfigured(nodes, Data) && AllConfigured(nodes, Control)
      ensures r.Ok? ==> Routed(mailboxes, nodes)
    {
      hide Routed, WireNodes;
      CreateReplicaMailboxes();
      CreatedHasIds(mailboxes, nodes);
      ghost var created := mailboxes;
      ConfiguredExactly(created, created, Data, nodes);
      r := WireOutputs(Data);
      if r.Ok? {
        ghost var data := mailboxes;
        KeysKept(created, Data, nodes);
        ConfiguredExactly(created, data, Control, nodes);
        r := WireOutputs(Control);
        if r.Ok? { WiredIsRouted(created, data, mailboxes, nodes); }
      }
    }
  }

  lemma {:induction false} FailsEarly(m: Boxes, channel: Channel, id: Id, targets: seq<Id>, j: nat)
    requires id in m && j < |targets| && targets[j] !in m
    ensures WireTargets(m, channel, id, targets).None?
  {
    var n := |targets| - 1;
    if j < n { FailsEarly(m, channel, id, targets[..n], j); }
  }

  lemma {:induction false} FailsEntry(m: Boxes, channel: Channel, nodes: seq<NodeConfig>, i: nat)
    requires IdsIn(nodes, m) && i < |nodes| && WireNodes(m, channel, nodes[..i]).Some?
    requires
      var before := WireNodes(m, channel, nodes[..i]).value;
      WireTargets(before, channel, nodes[i].id, TargetsOf(nodes[i], channel)).None?
    ensures WireNodes(m, channel, nodes).None?
  {
    var n := |nodes| - 1;
    if i < n {
      assert nodes[..n][..i] == nodes[..i];
      FailsEntry(m, channel, nodes[..n], i);
    }
  }

  /** Wiring succeeds exactly when every listed target is configured. */
  lemma {:induction false} WireNodesDefined(m: Boxes, channel: Channel, nodes: seq<NodeConfig>)
    requires IdsIn(nodes, m)
    ensures WireNodes(m, channel, nodes).Some? <==> forall i :: 0 <= i < |nodes| ==>
      AllIn(TargetsOf(nodes[i], channel), m.Keys)
  {
    hide AttachEach, AllIn, TargetsOf, WireTargets;
    if nodes != [] {
      var n := |nodes| - 1;
      WireNodesDefined(m, channel, nodes[..n]);
      var before := WireNodes(m, channel, nodes[..n]);
      if before.Some? {
        WireTargetsDefined(before.value, channel, nodes[n].id, TargetsOf(nodes[n], channel));
      }
    }
  }

  lemma {:induction false} WireTargetsDefined(m: Boxes, channel: Channel, id: Id, targets: seq<Id>)
    requires id in m
    ensures WireTargets(m, channel, id, targets).Some? <==> AllIn(targets, m.Keys)
  {
    hide AttachEach;
    if targets != [] {
      WireTargetsDefined(m, channel, id, targets[..|targets| - 1]);
    }
  }

  /** Every target listed on a channel is itself configured. */
  predicate AllConfigured(nodes: seq<NodeConfig>, channel: Channel) {
    forall i, j :: 0 <= i < |nodes| && 0 <= j < |TargetsOf(nodes[i], channel)| ==>
      ReplicasOf(nodes, TargetsOf(nodes[i], channel)[j]) > 0
  }

  lemma ConfiguredExactly(created: Boxes, m: Boxes, channel: Channel, nodes: seq<NodeConfig>)
    requires Created(created, nodes) && m.Keys == created.Keys && IdsIn(nodes, m)
    ensures WireNodes(m, channel, nodes).Some? <==> AllConfigured(nodes, channel)
  {
    hide WireNodes, TargetsOf, ReplicasOf, Unwired;
    WireNodesDefined(m, channel, nodes);
    if AllConfigured(nodes, channel) {
      forall i | 0 <= i < |nodes| ensures AllIn(TargetsOf(nodes[i], channel), m.Keys) {}
    } else {
      var i, j :| 0 <= i < |nodes| && 0 <= j < |TargetsOf(nodes[i], channel)|
               && ReplicasOf(nodes, TargetsOf(nodes[i], channel)[j]) == 0;
      assert !AllIn(TargetsOf(nodes[i], channel), m.Keys);
    }
  }

  // ---------- what wiring amounts to ----------

  /** All targets listed for a node id; ids may be configured more than once. */
  function Listed(nodes: seq<NodeConfig>, channel: Channel, id: Id): seq<Id> {
    if nodes == [] then [] else
    var last := nodes[|nodes| - 1];
    Listed(nodes[..|nodes| - 1], channel, id) + (if last.id == id then TargetsOf(last, channel) else [])
  }

  /** `box` with publishers for exactly `targets`. */
  ghost predicate Carries(before: Mailbox, box: Mailbox, channel: Channel, targets: seq<Id>,
                          portsOf: map<Id, seq<Port>>) {
    && AllIn(targets, portsOf.Keys)
    && match channel
       case Data => box == before.(pubs := Publishers(targets, portsOf))
       case Control => box == before.(controls := ControlPublishers(targets, portsOf))
  }

  ghost predicate AllCarry(before: seq<Mailbox>, boxes: seq<Mailbox>, channel: Channel, targets: seq<Id>,
                           portsOf: map<Id, seq<Port>>) {
    |boxes| == |before| && forall k :: 0 <= k < |boxes| ==> Carries(before[k], boxes[k], channel, targets, portsOf)
  }

  lemma CarriesKeepsPorts(before: seq<Mailbox>, boxes: seq<Mailbox>, channel: Channel, targets: seq<Id>,
                          portsOf: map<Id, seq<Port>>, c: Channel)
    requires AllCarry(before, boxes, channel, targets, portsOf)
    ensures PortsOf(boxes, c) == PortsOf(before, c)
  {
    hide Publishers, ControlPublishers;
  }

  lemma AttachCarries(before: seq<Mailbox>, boxes: seq<Mailbox>, channel: Channel, targets: seq<Id>,
                      portsOf: map<Id, seq<Port>>, target: Id)
    requires AllCarry(before, boxes, channel, targets, portsOf) && target in portsOf
    ensures AllCarry(before, AttachEach(boxes, channel, target, portsOf[target]), channel, targets + [target], portsOf)
  {
    assert (targets + [target])[..|targets|] == targets;
  }

  lemma {:induction false} WireTargetsSpec(created: Boxes, m: Boxes, channel: Channel, id: Id, had: seq<Id>,
                                           targets: seq<Id>)
    requires id in m && m.Keys == created.Keys && WireTargets(m, channel, id, targets).Some?
    requires AllCarry(created[id], m[id], channel, had, AllPorts(created, channel))
    requires forall other :: other in m ==> PortsOf(m[other], channel) == PortsOf(created[other], channel)
    ensures var r := WireTargets(m, channel, id, targets).value;
      && (forall other :: other in m && other != id ==> r[other] == m[other])
      && (forall other :: other in m ==> PortsOf(r[other], channel) == PortsOf(created[other], channel))
      && AllCarry(created[id], r[id], channel, had + targets, AllPorts(created, channel))
  {
    hide AllCarry, AttachEach, PortsOf;
    if targets == [] {
      assert had + targets == had;
    } else {
      var n := |targets| - 1;
      WireTargetsSpec(created, m, channel, id, had, targets[..n]);
      var before := WireTargets(m, channel, id, targets[..n]).value;
      AttachCarries(created[id], before[id], channel, had + targets[..n], AllPorts(created, channel), targets[n]);
      assert (had + targets[..n]) + [targets[n]] == had + targets;
      var r := WireTargets(m, channel, id, targets).value;
      CarriesKeepsPorts(created[id], r[id], channel, had + targets, AllPorts(created, channel), channel);
    }
  }

  /** After wiring, every mailbox carries exactly what its id lists. */
  lemma {:induction false} WireNodesSpec(m: Boxes, channel: Channel, nodes: seq<NodeConfig>)
    requires IdsIn(nodes, m) && WireNodes(m, channel, nodes).Some?
    requires forall id :: id in m ==> AllCarry(m[id], m[id], channel, [], AllPorts(m, channel))
    ensures var r := WireNodes(m, channel, nodes).value;
      && (forall id :: id in m ==> AllCarry(m[id], r[id], channel, Listed(nodes, channel, id), AllPorts(m, channel)))
      && (forall id :: id in m ==> PortsOf(r[id], channel) == PortsOf(m[id], channel))
  {
    hide AllCarry, WireTargets, PortsOf;
    if nodes != [] {
      var n := |nodes| - 1;
      WireNodesSpec(m, channel, nodes[..n]);
      var before, last := WireNodes(m, channel, nodes[..n]).value, nodes[n];
      WireTargetsSpec(m, before, channel, last.id, Listed(nodes[..n], channel, last.id), TargetsOf(last, channel));
      assert forall id :: Listed(nodes[..n], channel, id) + [] == Listed(nodes[..n], channel, id);
    }
  }

  /** The finished routing. Each replica of a node has one publisher per distinct target it lists, connected
      to each of the target's replicas exactly once, and control publishers to every replica of every
      control target. */
  ghost predicate Routed(m: Boxes, nodes: seq<NodeConfig>) {
    && OwnPorts(m)
    && (forall id :: id in m <==> ReplicasOf(nodes, id) > 0)
    && (forall id :: id in m ==> |m[id]| == ReplicasOf(nodes, id) && Distinct(PortsOf(m[id], Data)))
    && (forall id, k :: id in m && 0 <= k < |m[id]| ==>
          Reaches(m, m[id][k], Listed(nodes, Data, id), Listed(nodes, Control, id)))
  }

  ghost predicate Reaches(m: Boxes, box: Mailbox, targets: seq<Id>, controlTargets: seq<Id>) {
    && (forall t :: t in box.pubs <==> t in targets)
    && (forall t :: t in box.pubs ==> t in m && box.pubs[t] == PortsOf(m[t], Data))
    && (forall t :: t in box.controls <==> t in controlTargets)
    && (forall t, p :: t in box.controls ==> t in m && (p in box.controls[t] <==> p in PortsOf(m[t], Control)))
  }

  lemma Untouched(m: Boxes, channel: Channel, id: Id)
    requires id in m
    requires forall k :: 0 <= k < |m[id]| ==> (if channel.Data? then m[id][k].pubs else m[id][k].controls) == map[]
    ensures AllCarry(m[id], m[id], channel, [], AllPorts(m, channel))
  {
  }

  lemma WiredIsRouted(created: Boxes, data: Boxes, m: Boxes, nodes: seq<NodeConfig>)
    requires Created(created, nodes) && IdsIn(nodes, created) && IdsIn(nodes, data)
    requires WireNodes(created, Data, nodes) == Some(data) && WireNodes(data, Control, nodes) == Some(m)
    ensures Routed(m, nodes)
  {
    hide WireNodes, Listed, PortsOf, Distinct, AllCarry, OwnPorts;
    forall id | id in created ensures AllCarry(created[id], created[id], Data, [], AllPorts(created, Data)) {
      Untouched(created, Data, id);
    }
    WireNodesSpec(created, Data, nodes);
    KeysKept(created, Data, nodes);
    KeysKept(data, Control, nodes);
    forall id | id in data
      ensures AllCarry(data[id], data[id], Control, [], AllPorts(data, Control))
      ensures PortsOf(data[id], Control) == PortsOf(created[id], Control)
    {
      CarriesKeepsPorts(created[id], data[id], Data, Listed(nodes, Data, id), AllPorts(created, Data), Control);
      ControlsStillEmpty(created[id], data[id], Listed(nodes, Data, id), AllPorts(created, Data));
      Untouched(data, Control, id);
    }
    WireNodesSpec(data, Control, nodes);
    forall id | id in m ensures PortsOf(m[id], Data) == PortsOf(created[id], Data) && |m[id]| == |created[id]| {
      CarriesKeepsPorts(data[id], m[id], Control, Listed(nodes, Control, id), AllPorts(data, Control), Data);
      SameLength(data[id], m[id], Control, Listed(nodes, Control, id), AllPorts(data, Control));
      SameLength(created[id], data[id], Data, Listed(nodes, Data, id), AllPorts(created, Data));
    }
    SamePorts(created, m);
    forall id, k | id in m && 0 <= k < |m[id]|
      ensures Reaches(m, m[id][k], Listed(nodes, Data, id), Listed(nodes, Control, id))
    {
      BoxReaches(created, data, m, nodes, id, k);
    }
  }

  lemma KeysKept(m: Boxes, channel: Channel, nodes: seq<NodeConfig>)
    requires IdsIn(nodes, m) && WireNodes(m, channel, nodes).Some?
    ensures WireNodes(m, channel, nodes).value.Keys == m.Keys
  {
  }

  lemma SameLength(before: seq<Mailbox>, boxes: seq<Mailbox>, channel: Channel, targets: seq<Id>,
                   portsOf: map<Id, seq<Port>>)
    requires AllCarry(before, boxes, channel, targets, portsOf)
    ensures |boxes| == |before|
  {
  }

  lemma ControlsStillEmpty(before: seq<Mailbox>, boxes: seq<Mailbox>, targets: seq<Id>, portsOf: map<Id, seq<Port>>)
    requires AllCarry(before, boxes, Data, targets, portsOf)
    requires forall k :: 0 <= k < |before| ==> before[k].controls == map[]
    ensures forall k :: 0 <= k < |boxes| ==> boxes[k].controls == map[]
  {
    hide Publishers;
  }

  lemma BoxReaches(created: Boxes, data: Boxes, m: Boxes, nodes: seq<NodeConfig>, id: Id, k: nat)
    requires created.Keys == data.Keys == m.Keys && id in m && k < |m[id]|
    requires forall t :: t in created ==> Distinct(PortsOf(created[t], Data))
    requires AllCarry(created[id], data[id], Data, Listed(nodes, Data, id), AllPorts(created, Data))
    requires AllCarry(data[id], m[id], Control, Listed(nodes, Control, id), AllPorts(data, Control))
    requires forall t :: t in m ==>
      PortsOf(m[t], Data) == PortsOf(created[t], Data) && PortsOf(m[t], Control) == PortsOf(data[t], Control)
    ensures Reaches(m, m[id][k], Listed(nodes, Data, id), Listed(nodes, Control, id))
  {
    hide Listed, PortsOf, Distinct, Publishers, ControlPublishers;
    var targets, controls := Listed(nodes, Data, id), Listed(nodes, Control, id);
    assert Carries(created[id][k], data[id][k], Data, targets, AllPorts(created, Data));
    assert Carries(data[id][k], m[id][k], Control, controls, AllPorts(data, Control));
    PublishersSpec(targets, AllPorts(created, Data));
    ControlPublishersSpec(controls, AllPorts(data, Control));
  }

  /** The condition under which a mailbox may use shared memory, a single publisher, holds exactly when the
      node lists one distinct target; that publisher then serves each of its replicas through one
      connection. */
  lemma SinglePublisherExactly(m: Boxes, nodes: seq<NodeConfig>, id: Id, k: nat)
    requires Routed(m, nodes) && id in m && k < |m[id]|
    ensures |m[id][k].pubs| == 1 <==>
      exists t :: t in Listed(nodes, Data, id) && forall u :: u in Listed(nodes, Data, id) ==> u == t
    ensures forall t :: t in m[id][k].pubs ==>
      t in m && Distinct(m[id][k].pubs[t]) && |m[id][k].pubs[t]| == ReplicasOf(nodes, t)
  {
    hide ReplicasOf, Listed;
    assert Reaches(m, m[id][k], Listed(nodes, Data, id), Listed(nodes, Control, id));
    OneKey(m[id][k].pubs);
  }

  lemma OneElement(s: set<Id>, t: Id)
    requires t in s && |s| == 1
    ensures s == {t}
  {
    assert |s - {t}| == 0;
    assert s == {t} + (s - {t});
  }

  lemma OneKey(pubs: map<Id, seq<Port>>)
    ensures |pubs| == 1 <==> exists t :: t in pubs && forall u :: u in pubs ==> u == t
  {
    assert |pubs| == |pubs.Keys|;
    forall t | t in pubs && (forall u :: u in pubs ==> u == t) ensures |pubs| == 1 {
      assert pubs.Keys == {t};
    }
    if |pubs| == 1 {
      var t :| t in pubs.Keys;
      OneElement(pubs.Keys, t);
      assert forall u :: u in pubs ==> u in pubs.Keys;
    }
  }
}
